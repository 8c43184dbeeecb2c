/**
 * The features handed to the text classifier (backend/src/detection/ml/preprocessor.py): the
 * lower-cased text, a few lengths and counts, and the share of upper-case letters.
 */
module Preprocessor {
  import opened Text

  datatype Features = Features(
    text: string,
    linkCount: int,
    hasHtml: bool,
    subjectLength: nat,
    bodyLength: nat,
    exclamationCount: nat,
    questionCount: nat,
    uppercaseRatio: real)

  /** The number of characters of `s` that satisfy `p`. */
  function CountWhere(s: string, p: char -> bool): (n: nat)
    ensures n <= |s|
  {
    if |s| == 0 then 0 else CountWhere(s[..|s| - 1], p) + (if p(s[|s| - 1]) then 1 else 0)
  }

  /** `s.count(c)` for a one-character `c`. */
  function Count(s: string, c: char): nat {
    CountWhere(s, x => x == c)
  }

  /** A character count is the character's multiplicity. */
  lemma {:induction false} CountIsMultiplicity(s: string, c: char)
    ensures Count(s, c) == multiset(s)[c]
  {
    if |s| > 0 {
      var init := s[..|s| - 1];
      CountIsMultiplicity(init, c);
      assert s == init + [s[|s| - 1]];
      assert multiset(s) == multiset(init) + multiset{s[|s| - 1]};
    }
  }

  /** Counting a weaker property never gives fewer characters. */
  lemma {:induction false} CountWhereWeaker(s: string, p: char -> bool, q: char -> bool)
    requires forall c :: p(c) ==> q(c)
    ensures CountWhere(s, p) <= CountWhere(s, q)
  {
    if |s| > 0 {
      CountWhereWeaker(s[..|s| - 1], p, q);
    }
  }

  /** The count is zero exactly when no character satisfies the property. */
  lemma {:induction false} CountWhereZero(s: string, p: char -> bool)
    ensures CountWhere(s, p) == 0 <==> forall k :: 0 <= k < |s| ==> !p(s[k])
  {
    if |s| > 0 {
      var init := s[..|s| - 1];
      CountWhereZero(init, p);
      assert forall k :: 0 <= k < |init| ==> init[k] == s[k];
    }
  }

  /** Upper-case letters over letters, or 0 when there are no letters. */
  function UppercaseRatio(s: string): (r: real)
    ensures CountWhere(s, IsAlpha) > 0 ==> r == CountWhere(s, IsUpper) as real / CountWhere(s, IsAlpha) as real
    ensures CountWhere(s, IsAlpha) == 0 ==> r == 0.0
    ensures 0.0 <= r <= 1.0
    ensures r == 0.0 <==> forall k :: 0 <= k < |s| ==> !IsUpper(s[k])
  {
    var letters := CountWhere(s, IsAlpha);
    var upper := CountWhere(s, IsUpper);
    CountWhereWeaker(s, IsUpper, IsAlpha);
    CountWhereZero(s, IsUpper);
    if letters == 0 then 0.0 else Ratio(upper, letters)
  }

  /** `part / whole` for a part of a positive whole. */
  function Ratio(part: nat, whole: nat): (r: real)
    requires part <= whole && whole > 0
    ensures r == part as real / whole as real
    ensures 0.0 <= r <= 1.0
    ensures r == 0.0 <==> part == 0
    ensures r == 1.0 <==> part == whole
  {
    var p, w := part as real, whole as real;
    var r := p / w;
    assert r * w == p;
    assert r < 0.0 ==> r * w < 0.0;
    assert r > 1.0 ==> r * w > w;
    assert r == 1.0 ==> p == w;
    r
  }

  /** Every letter is upper case exactly when the ratio is 1 (and there is a letter). */
  lemma {:induction false} AllUpper(s: string)
    ensures UppercaseRatio(s) == 1.0 <==>
      CountWhere(s, IsAlpha) > 0 && forall k :: 0 <= k < |s| ==> (IsAlpha(s[k]) ==> IsUpper(s[k]))
  {
    AlphaNotUpper(s);
    CountWhereWeaker(s, IsUpper, IsAlpha);
    CountWhereZero(s, c => IsAlpha(c) && !IsUpper(c));
  }

  /** The letters are the upper-case ones plus the others. */
  lemma {:induction false} AlphaNotUpper(s: string)
    ensures CountWhere(s, IsAlpha) == CountWhere(s, IsUpper) + CountWhere(s, c => IsAlpha(c) && !IsUpper(c))
  {
    if |s| > 0 {
      AlphaNotUpper(s[..|s| - 1]);
    }
  }

  /** Lower-cased text has no upper-case letters left. */
  lemma LowerRatio(s: string)
    ensures UppercaseRatio(Lower(s)) == 0.0
  {
  }

  function ExtractFeatures(subject: string, bodyText: string, linkCount: int): (f: Features)
    ensures f.text == Lower(subject + " " + bodyText)
    ensures f.linkCount == linkCount && !f.hasHtml
    ensures f.subjectLength == |subject| && f.bodyLength == |bodyText|
    ensures f.exclamationCount == multiset(subject + " " + bodyText)['!']
    ensures f.questionCount == multiset(subject + " " + bodyText)['?']
    ensures f.exclamationCount <= |subject| + |bodyText| + 1 && f.questionCount <= |subject| + |bodyText| + 1
    ensures f.uppercaseRatio == UppercaseRatio(subject + " " + bodyText)
    ensures 0.0 <= f.uppercaseRatio <= 1.0
  {
    var text := subject + " " + bodyText;
    CountIsMultiplicity(text, '!');
    CountIsMultiplicity(text, '?');
    Features(Lower(text), linkCount, false, |subject|, |bodyText|, Count(text, '!'), Count(text, '?'),
             UppercaseRatio(text))
  }
}
