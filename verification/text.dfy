/**
 * Character classes and string operations of Python's `str` that the engine relies on,
 * restricted to ASCII for letters and digits (`\w`, `\d`, `isalpha`, `isupper`, `lower`).
 * Substring tests are written index by index so that they also evaluate on literals.
 */
module Text {

  /** Python's `str.isspace`, which is also what `\s` and `str.strip()` use. */
  predicate IsSpace(c: char) {
    || c == ' '
    || '\t' <= c <= '\r'
    || '\U{1c}' <= c <= '\U{1f}'
    || c == '\U{85}' || c == '\U{a0}' || c == '\U{1680}'
    || '\U{2000}' <= c <= '\U{200a}'
    || c == '\U{2028}' || c == '\U{2029}' || c == '\U{202f}' || c == '\U{205f}' || c == '\U{3000}'
  }

  predicate IsDigit(c: char) { '0' <= c <= '9' }

  predicate IsUpper(c: char) { 'A' <= c <= 'Z' }

  predicate IsLowerLetter(c: char) { 'a' <= c <= 'z' }

  predicate IsAlpha(c: char) { IsUpper(c) || IsLowerLetter(c) }

  /** The regular-expression class `\w`. */
  predicate IsWordChar(c: char) { IsAlpha(c) || IsDigit(c) || c == '_' }

  function LowerChar(c: char): (d: char)
    ensures !IsUpper(d)
    ensures IsAlpha(c) <==> IsAlpha(d)
  {
    if IsUpper(c) then (c as int + 32) as char else c
  }

  /** A character of an ordinary lower-case host name: an ASCII letter `a`-`z`, a digit, `.` or `-`. */
  predicate IsNameChar(c: char) { IsLowerLetter(c) || IsDigit(c) || c == '.' || c == '-' }

  /** A name character is neither white space nor any of the punctuation that ends a name. */
  lemma NameCharPlain(c: char)
    requires IsNameChar(c)
    ensures !IsSpace(c) && !IsUpper(c) && c != '>' && c != '@'
  {
  }

  /** Every character from `i` on is a name character; checked index by index, so that it
      evaluates on literals. */
  predicate NameFrom(s: string, i: nat)
    decreases |s| - i
  {
    i >= |s| || (IsNameChar(s[i]) && NameFrom(s, i + 1))
  }

  lemma {:induction false} NameAt(s: string, i: nat, k: nat)
    requires NameFrom(s, i) && i <= k < |s|
    ensures IsNameChar(s[k])
    decreases k - i
  {
    if i < k {
      NameAt(s, i + 1, k);
    }
  }

  /** A host name written in lower case is its own lower-case form. */
  lemma LowerOfName(s: string)
    requires NameFrom(s, 0)
    ensures Lower(s) == s
  {
    forall k | 0 <= k < |s| ensures Lower(s)[k] == s[k] {
      NameAt(s, 0, k);
    }
  }

  /** Python's `str.lower()`. */
  function Lower(s: string): (r: string)
    ensures |r| == |s|
  {
    seq(|s|, i requires 0 <= i < |s| => LowerChar(s[i]))
  }

  predicate NoUpperFrom(s: string, i: nat)
    decreases |s| - i
  {
    i >= |s| || (!IsUpper(s[i]) && NoUpperFrom(s, i + 1))
  }

  /** A string without upper-case letters is its own lower-case form. */
  lemma {:induction false} LowerOfLower(s: string)
    requires NoUpperFrom(s, 0)
    ensures Lower(s) == s
  {
    forall k | 0 <= k < |s|
      ensures Lower(s)[k] == s[k]
    {
      NoUpperAt(s, 0, k);
    }
  }

  lemma {:induction false} NoUpperAt(s: string, i: nat, k: nat)
    requires NoUpperFrom(s, i) && i <= k < |s|
    ensures !IsUpper(s[k])
    decreases k - i
  {
    if i < k {
      NoUpperAt(s, i + 1, k);
    }
  }

  // ---------------------------------------------------------------------------
  // Substrings

  predicate MatchFrom(s: string, p: string, i: nat, j: nat)
    requires i + |p| <= |s| && j <= |p|
    decreases |p| - j
  {
    j == |p| || (s[i + j] == p[j] && MatchFrom(s, p, i, j + 1))
  }

  /** `p` occurs in `s` at position `i`. */
  predicate MatchAt(s: string, p: string, i: nat) {
    i + |p| <= |s| && MatchFrom(s, p, i, 0)
  }

  lemma {:induction false} MatchFromChars(s: string, p: string, i: nat, j: nat)
    requires i + |p| <= |s| && j <= |p|
    ensures MatchFrom(s, p, i, j) <==> forall k :: j <= k < |p| ==> s[i + k] == p[k]
    decreases |p| - j
  {
    if j < |p| {
      MatchFromChars(s, p, i, j + 1);
    }
  }

  /** Where a string occurs, so does each of its prefixes. */
  lemma MatchAtPrefix(s: string, p: string, q: string, i: nat)
    requires MatchAt(s, p, i) && |q| <= |p| && p[..|q|] == q
    ensures MatchAt(s, q, i)
  {
    MatchFromChars(s, p, i, 0);
    MatchFromChars(s, q, i, 0);
    assert forall k :: 0 <= k < |q| ==> q[k] == p[k];
  }

  lemma MatchAtSlice(s: string, p: string, i: nat)
    ensures MatchAt(s, p, i) <==> i + |p| <= |s| && s[i..i + |p|] == p
  {
    if i + |p| <= |s| {
      MatchFromChars(s, p, i, 0);
    }
  }

  /** Like `MatchAt`, but `s` is lower-cased first; `p` is expected to be lower case. */
  predicate MatchFromCI(s: string, p: string, i: nat, j: nat)
    requires i + |p| <= |s| && j <= |p|
    decreases |p| - j
  {
    j == |p| || (LowerChar(s[i + j]) == p[j] && MatchFromCI(s, p, i, j + 1))
  }

  predicate MatchAtCI(s: string, p: string, i: nat) {
    i + |p| <= |s| && MatchFromCI(s, p, i, 0)
  }

  lemma {:induction false} MatchFromCIChars(s: string, p: string, i: nat, j: nat)
    requires i + |p| <= |s| && j <= |p|
    ensures MatchFromCI(s, p, i, j) <==> forall k :: j <= k < |p| ==> LowerChar(s[i + k]) == p[k]
    decreases |p| - j
  {
    if j < |p| {
      MatchFromCIChars(s, p, i, j + 1);
    }
  }

  /** Text that spells the word `w` in any case, at offset |pre|. */
  lemma WordAt(pre: string, t: string, post: string, w: string)
    requires Lower(t) == w
    ensures MatchAtCI(pre + t + post, w, |pre|)
  {
    var s := pre + t + post;
    forall k | 0 <= k < |w| ensures LowerChar(s[|pre| + k]) == w[k] {
      assert s[|pre| + k] == t[k];
    }
    MatchFromCIChars(s, w, |pre|, 0);
  }

  predicate ContainsFrom(s: string, p: string, i: nat)
    decreases |s| - i
  {
    i + |p| <= |s| && (MatchAt(s, p, i) || ContainsFrom(s, p, i + 1))
  }

  /** Python's `p in s` for strings. */
  predicate Contains(s: string, p: string) {
    ContainsFrom(s, p, 0)
  }

  lemma {:induction false} ContainsFromIff(s: string, p: string, i: nat)
    ensures ContainsFrom(s, p, i) <==> exists k: nat :: i <= k && MatchAt(s, p, k)
    decreases |s| - i
  {
    if i + |p| <= |s| {
      ContainsFromIff(s, p, i + 1);
      if exists k: nat :: i <= k && MatchAt(s, p, k) {
        var k: nat :| i <= k && MatchAt(s, p, k);
        assert k == i || (i + 1 <= k && MatchAt(s, p, k));
      }
    }
  }

  /** `Contains` is the existence of an occurrence. */
  lemma ContainsIff(s: string, p: string)
    ensures Contains(s, p) <==> exists k: nat :: MatchAt(s, p, k)
  {
    ContainsFromIff(s, p, 0);
  }

  /** A string contains every part it is assembled from. */
  lemma ContainsMiddle(a: string, p: string, b: string)
    ensures Contains(a + p + b, p)
  {
    var s := a + p + b;
    assert s[|a|..|a| + |p|] == p;
    MatchAtSlice(s, p, |a|);
    ContainsIff(s, p);
  }

  /** Python's `s.startswith(p)` and `s.endswith(p)`. */
  predicate StartsWith(s: string, p: string) { MatchAt(s, p, 0) }

  predicate EndsWith(s: string, p: string) { |p| <= |s| && MatchAt(s, p, |s| - |p|) }

  /** Length of the longest run of characters satisfying `ok` that starts at `p`
      (a greedy character-class repetition of a regular expression). */
  function RunLength(s: string, p: nat, ok: char -> bool): (r: nat)
    ensures p + r <= |s| || (p >= |s| && r == 0)
    ensures forall k :: p <= k < p + r ==> ok(s[k])
    ensures p + r < |s| ==> !ok(s[p + r])
    decreases |s| - p
  {
    if p < |s| && ok(s[p]) then 1 + RunLength(s, p + 1, ok) else 0
  }

  // ---------------------------------------------------------------------------
  // Stripping

  /** Removes the longest suffix whose characters all satisfy `drop` (Python's `rstrip`). */
  function TrimEnd(s: string, drop: char -> bool): (r: string)
    ensures |r| <= |s| && r == s[..|r|]
    ensures |r| == 0 || !drop(r[|r| - 1])
    ensures forall k :: |r| <= k < |s| ==> drop(s[k])
    decreases |s|
  {
    if |s| > 0 && drop(s[|s| - 1]) then TrimEnd(s[..|s| - 1], drop) else s
  }

  /** Removes the longest prefix whose characters all satisfy `drop` (Python's `lstrip`). */
  function TrimStart(s: string, drop: char -> bool): (r: string)
    ensures |r| <= |s| && r == s[|s| - |r|..]
    ensures |r| == 0 || !drop(r[0])
    ensures forall k :: 0 <= k < |s| - |r| ==> drop(s[k])
    decreases |s|
  {
    if |s| > 0 && drop(s[0]) then TrimStart(s[1..], drop) else s
  }

  /** Python's `s.strip()`. */
  function Strip(s: string): string {
    TrimStart(TrimEnd(s, IsSpace), IsSpace)
  }

  /** A string that neither starts nor ends with whitespace is its own `strip()`. */
  lemma StripUnchanged(s: string)
    requires |s| > 0 && !IsSpace(s[0]) && !IsSpace(s[|s| - 1])
    ensures Strip(s) == s
  {
    assert TrimEnd(s, IsSpace) == s;
  }

  /** Python's `s.strip(chars)`. */
  function StripChars(s: string, chars: string): string {
    TrimStart(TrimEnd(s, c => c in chars), c => c in chars)
  }

  /** A string that neither starts nor ends with one of `chars` is left alone by `strip(chars)`. */
  lemma StripCharsUnchanged(s: string, chars: string)
    requires |s| > 0 && s[0] !in chars && s[|s| - 1] !in chars
    ensures StripChars(s, chars) == s
  {
  }

  // ---------------------------------------------------------------------------
  // Decimal rendering, as in an f-string `{n}`

  function DigitChar(d: nat): (c: char)
    requires d < 10
    ensures IsDigit(c) && c as int - '0' as int == d
  {
    (d + '0' as int) as char
  }

  /** The number a string of decimal digits denotes. */
  function DecimalValue(r: string): nat
    requires forall k :: 0 <= k < |r| ==> IsDigit(r[k])
  {
    if |r| == 0 then 0
    else
      assert IsDigit(r[|r| - 1]);
      DecimalValue(r[..|r| - 1]) * 10 + (r[|r| - 1] as int - '0' as int)
  }

  function NatToString(n: nat): (r: string)
    ensures 1 <= |r|
    ensures forall k :: 0 <= k < |r| ==> IsDigit(r[k])
    ensures r[0] == '0' ==> n == 0
    ensures DecimalValue(r) == n
    decreases n
  {
    if n < 10 then [DigitChar(n)]
    else
      var r := NatToString(n / 10) + [DigitChar(n % 10)];
      assert r[..|r| - 1] == NatToString(n / 10);
      r
  }
}
