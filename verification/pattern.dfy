/**
 * The fragment of Python's `re` that the phrase lists of the language heuristic use: literal
 * characters compared case-insensitively (`re.IGNORECASE`), `\s`, `\d`, concatenation,
 * alternation groups, and the greedy `?`, `*` and `+`.
 *
 * `Ends(r, s, i)` lists the positions where a match of `r` that starts at `i` can end, in the
 * order a backtracking matcher tries them; `re.search` reports the first start position that has
 * any end, with the first end in that order.
 */
module Pattern {
  import opened Options
  import opened Text

  datatype Regex =
    | Lit(c: char)          // one character; `c` is lower case and compared with the lowered input
    | Space                 // `\s`
    | Digit                 // `\d`
    | Empty                 // matches the empty string
    | Str(w: string)        // a word; `w` is lower case and compared with the lowered input
    | Cat(a: Regex, b: Regex)
    | Alt(a: Regex, b: Regex)
    | Opt(a: Regex)         // greedy `?`
    | Star(a: Regex)        // greedy `*`

  /** Greedy `+`. */
  function Plus(a: Regex): Regex { Cat(a, Star(a)) }

  /** A lower-case literal word. */
  function Word(w: string): Regex { Str(w) }

  /** A regular expression that matches exactly one character, and the characters it accepts. */
  predicate Single(r: Regex) { r.Lit? || r.Space? || r.Digit? }

  predicate Accepts(r: Regex, x: char)
    requires Single(r)
  {
    match r
    case Lit(c) => LowerChar(x) == c
    case Space => IsSpace(x)
    case Digit => IsDigit(x)
  }

  predicate Within(es: seq<nat>, lo: nat, hi: nat) {
    forall k :: 0 <= k < |es| ==> lo <= es[k] <= hi
  }

  /** The ends of the matches of `r` in `s` that start at `i`, in backtracking order. */
  function Ends(r: Regex, s: string, i: nat): (es: seq<nat>)
    requires i <= |s|
    ensures Within(es, i, |s|)
    decreases r, |s| - i, 1, 0
  {
    match r
    case Lit(_) => if i < |s| && Accepts(r, s[i]) then [i + 1] else []
    case Space => if i < |s| && Accepts(r, s[i]) then [i + 1] else []
    case Digit => if i < |s| && Accepts(r, s[i]) then [i + 1] else []
    case Empty => [i]
    case Str(w) => if MatchAtCI(s, w, i) then [i + |w|] else []
    case Cat(a, b) => Then(b, s, i, Ends(a, s, i))
    case Alt(a, b) => WithinAppend(Ends(a, s, i), Ends(b, s, i), i, |s|); Ends(a, s, i) + Ends(b, s, i)
    case Opt(a) => WithinAppend(Ends(a, s, i), [i], i, |s|); Ends(a, s, i) + [i]
    case Star(a) =>
      var again := Again(a, s, i, Ends(a, s, i));
      WithinAppend(again, [i], i, |s|);
      again + [i]
  }

  lemma WithinAppend(xs: seq<nat>, ys: seq<nat>, lo: nat, hi: nat)
    requires Within(xs, lo, hi) && Within(ys, lo, hi)
    ensures Within(xs + ys, lo, hi)
  {
  }

  /** The ends of `b` matched after each end in `es`, in order. */
  function Then(b: Regex, s: string, lo: nat, es: seq<nat>): (rs: seq<nat>)
    requires lo <= |s| && Within(es, lo, |s|)
    ensures Within(rs, lo, |s|)
    decreases b, |s| - lo, 2, |es|
  {
    if |es| == 0 then []
    else
      var first := Ends(b, s, es[0]);
      assert Within(first, lo, |s|) by {
        assert forall k :: 0 <= k < |first| ==> es[0] <= first[k];
      }
      first + Then(b, s, lo, es[1..])
  }

  /** One more round of a greedy `*` after each end of its body; an iteration that matched the
      empty string ends the repetition, as in Python's matcher. */
  function Again(a: Regex, s: string, i: nat, es: seq<nat>): (rs: seq<nat>)
    requires i <= |s| && Within(es, i, |s|)
    ensures Within(rs, i, |s|)
    decreases Star(a), |s| - i, 0, |es|
  {
    if |es| == 0 then []
    else
      var first := if es[0] > i then Ends(Star(a), s, es[0]) else [];
      assert Within(first, i, |s|) by {
        assert forall k :: 0 <= k < |first| ==> es[0] <= first[k];
      }
      first + Again(a, s, i, es[1..])
  }

  /** The positions `hi`, `hi - 1`, ..., `lo`. */
  function Down(hi: nat, lo: nat): (ds: seq<nat>)
    requires lo <= hi
    ensures |ds| == hi - lo + 1
    ensures forall k :: 0 <= k < |ds| ==> ds[k] == hi - k
    decreases hi - lo
  {
    if hi == lo then [lo] else [hi] + Down(hi - 1, lo)
  }

  lemma EndsSingle(a: Regex, s: string, i: nat)
    requires Single(a) && i <= |s|
    ensures Ends(a, s, i) == if i < |s| && Accepts(a, s[i]) then [i + 1] else []
  {
  }

  lemma AgainOne(a: Regex, s: string, i: nat, e: nat)
    requires i < e <= |s|
    ensures Again(a, s, i, [e]) == Ends(Star(a), s, e)
  {
    assert Again(a, s, i, [e]) == Ends(Star(a), s, e) + Again(a, s, i, []);
  }

  /** One more character of the class: the longer repetitions come first, then the empty one. */
  lemma StarStep(a: Regex, s: string, i: nat)
    requires Single(a) && i < |s| && Accepts(a, s[i])
    ensures Ends(Star(a), s, i) == Ends(Star(a), s, i + 1) + [i]
  {
    EndsSingle(a, s, i);
    AgainOne(a, s, i, i + 1);
  }

  /** No character of the class: only the empty repetition. */
  lemma StarStop(a: Regex, s: string, i: nat)
    requires Single(a) && i <= |s| && !(i < |s| && Accepts(a, s[i]))
    ensures Ends(Star(a), s, i) == [i]
  {
    EndsSingle(a, s, i);
  }

  lemma DownLast(hi: nat, lo: nat)
    requires lo < hi
    ensures Down(hi, lo) == Down(hi, lo + 1) + [lo]
  {
  }

  /** The characters a single-character expression accepts, as a predicate. */
  function Class(a: Regex): char -> bool
    requires Single(a)
  {
    x => Accepts(a, x)
  }

  /** One more accepted character in front of a run of `n` adds the longest repetition. */
  lemma StarLonger(a: Regex, s: string, i: nat, n: nat)
    requires Single(a) && i < |s| && Accepts(a, s[i]) && i + 1 + n <= |s|
    requires Ends(Star(a), s, i + 1) == Down(i + 1 + n, i + 1)
    ensures Ends(Star(a), s, i) == Down(i + 1 + n, i)
  {
    StarStep(a, s, i);
    DownLast(i + 1 + n, i);
  }

  /** A run of exactly `n` accepted characters from `i`. */
  predicate RunOf(a: Regex, s: string, i: nat, n: nat)
    requires Single(a)
  {
    && i + n <= |s|
    && (forall k :: i <= k < i + n ==> Accepts(a, s[k]))
    && (i + n == |s| || !Accepts(a, s[i + n]))
  }

  /** A greedy `*` over a run of `n` characters of its class ends at `i + n`, then at each
      shorter length down to the empty repetition. */
  lemma {:induction false} StarRun(a: Regex, s: string, i: nat, n: nat)
    requires Single(a) && RunOf(a, s, i, n)
    ensures Ends(Star(a), s, i) == Down(i + n, i)
    decreases n
  {
    if n > 0 {
      var m := n - 1;
      assert RunOf(a, s, i + 1, m);
      StarRun(a, s, i + 1, m);
      assert i + 1 + m == i + n;
      StarLonger(a, s, i, m);
    } else {
      StarStop(a, s, i);
      assert Down(i, i) == [i];
    }
  }

  /** A greedy `*` over one character class tries the longest run first, then each shorter one. */
  lemma StarSingle(a: Regex, s: string, i: nat)
    requires Single(a) && i <= |s|
    ensures Ends(Star(a), s, i) == Down(i + RunLength(s, i, Class(a)), i)
  {
    StarRun(a, s, i, RunLength(s, i, Class(a)));
  }

  // ---------------------------------------------------------------------------
  // Building a match piece by piece

  /** A match of `a` followed by a match of `b` is a match of `Cat(a, b)`. */
  lemma {:induction false} ThenIncludes(b: Regex, s: string, lo: nat, es: seq<nat>, k: nat, x: nat)
    requires lo <= |s| && Within(es, lo, |s|)
    requires k < |es| && x in Ends(b, s, es[k])
    ensures x in Then(b, s, lo, es)
    decreases |es|
  {
    if k > 0 {
      ThenIncludes(b, s, lo, es[1..], k - 1, x);
    }
  }

  lemma CatThrough(a: Regex, b: Regex, s: string, i: nat, e: nat, x: nat)
    requires i <= |s| && e in Ends(a, s, i) && e <= |s| && x in Ends(b, s, e)
    ensures x in Ends(Cat(a, b), s, i)
  {
    var es := Ends(a, s, i);
    var k :| 0 <= k < |es| && es[k] == e;
    ThenIncludes(b, s, i, es, k, x);
  }

  /** `Star`, `Opt` and `Empty` may always match nothing. */
  lemma MayBeEmpty(r: Regex, s: string, i: nat)
    requires i <= |s| && (r.Star? || r.Opt? || r.Empty?)
    ensures i in Ends(r, s, i)
  {
  }

  /** An alternative matches wherever either branch does. */
  lemma AltEither(a: Regex, b: Regex, s: string, i: nat, x: nat)
    requires i <= |s| && (x in Ends(a, s, i) || x in Ends(b, s, i))
    ensures x in Ends(Alt(a, b), s, i)
  {
  }

  lemma OptTaken(a: Regex, s: string, i: nat, x: nat)
    requires i <= |s| && x in Ends(a, s, i)
    ensures x in Ends(Opt(a), s, i)
  {
  }

  /** One character of a class is a match of `+` over that class. */
  lemma PlusOne(a: Regex, s: string, i: nat)
    requires Single(a) && i < |s| && Accepts(a, s[i])
    ensures i + 1 in Ends(Plus(a), s, i)
  {
    EndsSingle(a, s, i);
    MayBeEmpty(Star(a), s, i + 1);
    CatThrough(a, Star(a), s, i, i + 1, i + 1);
  }

  lemma WordMatch(w: string, s: string, i: nat)
    requires i <= |s| && MatchAtCI(s, w, i)
    ensures i + |w| in Ends(Word(w), s, i)
  {
  }

  /** The leftmost start at or after `k` where `r` matches, with the first end tried there. */
  function SearchFrom(r: Regex, s: string, k: nat): (m: Option<(nat, nat)>)
    requires k <= |s|
    ensures m.Some? ==> k <= m.value.0 <= m.value.1 <= |s|
    ensures m.Some? ==> Ends(r, s, m.value.0) != [] && m.value.1 == Ends(r, s, m.value.0)[0]
    ensures m.Some? ==> forall j :: k <= j < m.value.0 ==> Ends(r, s, j) == []
    ensures m.None? ==> forall j :: k <= j <= |s| ==> Ends(r, s, j) == []
    decreases |s| - k
  {
    var es := Ends(r, s, k);
    if es != [] then Some((k, es[0]))
    else if k == |s| then None
    else SearchFrom(r, s, k + 1)
  }

  /** `re.search(r, s)` with `re.IGNORECASE`, reduced to the text of the match (`group()`). */
  function Search(r: Regex, s: string): (m: Option<string>)
    ensures m.Some? <==> exists j :: 0 <= j <= |s| && Ends(r, s, j) != []
    ensures m.Some? ==> Contains(s, m.value)
  {
    var found := SearchFrom(r, s, 0);
    if found.Some? then
      var a, b := found.value.0, found.value.1;
      assert Ends(r, s, a) != [];
      MatchedText(s, a, b);
      Some(s[a..b])
    else
      None
  }

  /** A pattern that matches somewhere is found by the search. */
  lemma SearchFinds(r: Regex, s: string, j: nat, x: nat)
    requires j <= |s| && x in Ends(r, s, j)
    ensures Search(r, s).Some?
  {
  }

  lemma MatchedText(s: string, a: nat, b: nat)
    requires a <= b <= |s|
    ensures Contains(s, s[a..b])
  {
    MatchAtSlice(s, s[a..b], a);
    ContainsIff(s, s[a..b]);
  }
}
