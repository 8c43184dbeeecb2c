/**
 * Levenshtein edit distance, as `DomainAnalyzer._levenshtein` computes it with two rows of a
 * dynamic-programming table, together with the recursive definition the rows are proved to
 * agree with and the bounds the brand checks use.
 */
module Levenshtein {

  function Min3(a: nat, b: nat, c: nat): (m: nat)
    ensures m <= a && m <= b && m <= c
    ensures m == a || m == b || m == c
  {
    if a <= b && a <= c then a else if b <= c then b else c
  }

  /** Edit distance between the prefixes `s[..i]` and `t[..j]`. */
  function Dist(s: string, t: string, i: nat, j: nat): nat
    requires i <= |s| && j <= |t|
    decreases i + j
  {
    if i == 0 then j
    else if j == 0 then i
    else Min3(Dist(s, t, i - 1, j) + 1,
              Dist(s, t, i, j - 1) + 1,
              Dist(s, t, i - 1, j - 1) + (if s[i - 1] == t[j - 1] then 0 else 1))
  }

  /** The edit distance between two whole strings. */
  function Lev(s: string, t: string): (d: nat)
    ensures |t| == 0 ==> d == |s|
    ensures |s| == 0 ==> d == |t|
  {
    Dist(s, t, |s|, |t|)
  }

  // ---------------------------------------------------------------------------
  // Properties of the definition

  /** Swapping the strings never shortens the distance; applied both ways, this is symmetry. */
  predicate SwapNoShorter(s: string, t: string, i: nat, j: nat)
    requires i <= |s| && j <= |t|
  {
    Dist(s, t, i, j) <= Dist(t, s, j, i)
  }

  lemma {:induction false} DistAtMostSwapped(s: string, t: string, i: nat, j: nat)
    requires i <= |s| && j <= |t|
    ensures SwapNoShorter(s, t, i, j)
    decreases i + j
  {
    if i > 0 && j > 0 {
      DistAtMostSwapped(s, t, i - 1, j);
      DistAtMostSwapped(s, t, i, j - 1);
      DistAtMostSwapped(s, t, i - 1, j - 1);
    }
  }

  lemma DistSymmetric(s: string, t: string, i: nat, j: nat)
    requires i <= |s| && j <= |t|
    ensures Dist(s, t, i, j) == Dist(t, s, j, i)
  {
    DistAtMostSwapped(s, t, i, j);
    DistAtMostSwapped(t, s, j, i);
  }

  lemma LevSymmetric(s: string, t: string)
    ensures Lev(s, t) == Lev(t, s)
  {
    DistSymmetric(s, t, |s|, |t|);
  }

  lemma {:induction false} DistZero(s: string, t: string, i: nat, j: nat)
    requires i <= |s| && j <= |t|
    ensures Dist(s, t, i, j) == 0 <==> i == j && s[..i] == t[..j]
    decreases i + j
  {
    if i > 0 && j > 0 {
      DistZero(s, t, i - 1, j - 1);
      assert s[..i] == s[..i - 1] + [s[i - 1]];
      assert t[..j] == t[..j - 1] + [t[j - 1]];
      if i == j && s[..i] == t[..j] {
        assert s[..i - 1] == s[..i][..i - 1] && t[..j - 1] == t[..j][..j - 1];
        assert s[i - 1] == s[..i][i - 1] && t[j - 1] == t[..j][j - 1];
      }
    }
  }

  /** Distance zero means equal strings, and only then. */
  lemma LevZeroIff(s: string, t: string)
    ensures Lev(s, t) == 0 <==> s == t
  {
    DistZero(s, t, |s|, |t|);
    assert s[..|s|] == s && t[..|t|] == t;
  }

  lemma {:induction false} DistAtMostLonger(s: string, t: string, i: nat, j: nat)
    requires i <= |s| && j <= |t|
    ensures Dist(s, t, i, j) <= if i <= j then j else i
    decreases i + j
  {
    if i > 0 && j > 0 {
      DistAtMostLonger(s, t, i - 1, j - 1);
    }
  }

  /** The distance never exceeds the length of the longer string. */
  lemma LevAtMostLonger(s: string, t: string)
    ensures Lev(s, t) <= if |s| <= |t| then |t| else |s|
  {
    DistAtMostLonger(s, t, |s|, |t|);
  }

  lemma {:induction false} DistAtLeastGap(s: string, t: string, i: nat, j: nat)
    requires i <= |s| && j <= |t|
    ensures Dist(s, t, i, j) >= if i <= j then j - i else i - j
    decreases i + j
  {
    if i > 0 && j > 0 {
      DistAtLeastGap(s, t, i - 1, j);
      DistAtLeastGap(s, t, i, j - 1);
      DistAtLeastGap(s, t, i - 1, j - 1);
    }
  }

  /** The distance is at least the difference of the lengths. */
  lemma LevAtLeastGap(s: string, t: string)
    ensures Lev(s, t) >= if |s| <= |t| then |t| - |s| else |s| - |t|
  {
    DistAtLeastGap(s, t, |s|, |t|);
  }

  // ---------------------------------------------------------------------------
  // Bounds that can be evaluated on concrete strings

  /** Number of positions below `i` where two strings of equal length differ. */
  function Mismatches(s: string, t: string, i: nat): nat
    requires i <= |s| && i <= |t|
  {
    if i == 0 then 0 else Mismatches(s, t, i - 1) + (if s[i - 1] == t[i - 1] then 0 else 1)
  }

  lemma {:induction false} DistAtMostMismatches(s: string, t: string, i: nat)
    requires i <= |s| && i <= |t|
    ensures Dist(s, t, i, i) <= Mismatches(s, t, i)
  {
    if i > 0 {
      DistAtMostMismatches(s, t, i - 1);
    }
  }

  /** Substituting characters in place is one way to edit, so equal-length strings are at most
      as far apart as the number of positions where they differ. */
  lemma LevAtMostMismatches(s: string, t: string)
    requires |s| == |t|
    ensures Lev(s, t) <= Mismatches(s, t, |s|)
  {
    DistAtMostMismatches(s, t, |s|);
  }

  /** `c` occurs in `t[..j]`. */
  predicate OccursIn(c: char, t: string, j: nat)
    requires j <= |t|
  {
    j > 0 && (t[j - 1] == c || OccursIn(c, t, j - 1))
  }

  /** Number of positions of `s[..i]` holding a character that does not occur in `t[..j]`. */
  function Absent(s: string, t: string, i: nat, j: nat): nat
    requires i <= |s| && j <= |t|
  {
    if i == 0 then 0 else Absent(s, t, i - 1, j) + (if OccursIn(s[i - 1], t, j) then 0 else 1)
  }

  lemma {:induction false} AbsentShrinks(s: string, t: string, i: nat, j: nat)
    requires i <= |s| && 0 < j <= |t|
    ensures Absent(s, t, i, j) <= Absent(s, t, i, j - 1)
  {
    if i > 0 {
      AbsentShrinks(s, t, i - 1, j);
    }
  }

  lemma {:induction false} AbsentAtMost(s: string, t: string, i: nat, j: nat)
    requires i <= |s| && j <= |t|
    ensures Absent(s, t, i, j) <= i
  {
    if i > 0 {
      AbsentAtMost(s, t, i - 1, j);
    }
  }

  lemma {:induction false} DistAtLeastAbsent(s: string, t: string, i: nat, j: nat)
    requires i <= |s| && j <= |t|
    ensures Dist(s, t, i, j) >= Absent(s, t, i, j)
    decreases i + j
  {
    if i == 0 {
    } else if j == 0 {
      AbsentAtMost(s, t, i, j);
    } else {
      DistAtLeastAbsent(s, t, i - 1, j);
      DistAtLeastAbsent(s, t, i, j - 1);
      DistAtLeastAbsent(s, t, i - 1, j - 1);
      AbsentShrinks(s, t, i, j);
      AbsentShrinks(s, t, i - 1, j);
    }
  }

  /** Every character of one string that the other lacks costs at least one edit. */
  lemma LevAtLeastAbsent(s: string, t: string)
    ensures Lev(s, t) >= Absent(s, t, |s|, |t|)
    ensures Lev(s, t) >= Absent(t, s, |t|, |s|)
  {
    DistAtLeastAbsent(s, t, |s|, |t|);
    DistAtLeastAbsent(t, s, |t|, |s|);
    LevSymmetric(s, t);
  }

  // ---------------------------------------------------------------------------
  // The two-row table of the implementation

  /**
   * The implementation: the longer string indexes the rows, and row `i` holds the distances of
   * `s1[..i]` to every prefix of `s2`; only the previous row is kept.
   */
  method LevenshteinRows(s1: string, s2: string) returns (d: nat)
    ensures d == Lev(s1, s2)
  {
    if |s1| < |s2| {
      d := Rows(s2, s1);
      LevSymmetric(s2, s1);
    } else {
      d := Rows(s1, s2);
    }
  }

  /** The table for a first string at least as long as the second. */
  method Rows(s1: string, s2: string) returns (d: nat)
    requires |s1| >= |s2|
    ensures d == Lev(s1, s2)
  {
    if |s2| == 0 {
      return |s1|;
    }
    d := Table(s1, s2);
  }

  /** Row after row, down to the last one, whose last entry is the distance. */
  method Table(s1: string, s2: string) returns (d: nat)
    ensures d == Lev(s1, s2)
  {
    var prev: seq<nat> := FirstRow(s1, s2);
    var i := 0;
    while i < |s1|
      invariant 0 <= i <= |s1|
      invariant |prev| == |s2| + 1
      invariant forall j {:trigger prev[j]} :: 0 <= j <= |s2| ==> prev[j] == Dist(s1, s2, i, j)
    {
      prev := NextRow(s1, s2, i, prev);
      i := i + 1;
    }
    assert prev[|s2|] == Dist(s1, s2, |s1|, |s2|);
    d := prev[|s2|];
  }

  /** Row zero of the table: the distance of the empty prefix to `s2[..j]` is `j`. */
  function FirstRow(s1: string, s2: string): (row: seq<nat>)
    ensures |row| == |s2| + 1
    ensures forall j {:trigger row[j]} :: 0 <= j <= |s2| ==> row[j] == Dist(s1, s2, 0, j)
  {
    seq(|s2| + 1, j requires 0 <= j <= |s2| => j as nat)
  }

  /** One row of the table: from the distances of `s1[..i]` to the distances of `s1[..i + 1]`. */
  method NextRow(s1: string, s2: string, i: nat, prev: seq<nat>) returns (curr: seq<nat>)
    requires i < |s1| && |prev| == |s2| + 1
    requires forall j {:trigger prev[j]} :: 0 <= j <= |s2| ==> prev[j] == Dist(s1, s2, i, j)
    ensures |curr| == |s2| + 1
    ensures forall j {:trigger curr[j]} :: 0 <= j <= |s2| ==> curr[j] == Dist(s1, s2, i + 1, j)
  {
    curr := [i + 1];
    var j := 0;
    while j < |s2|
      invariant 0 <= j <= |s2|
      invariant |curr| == j + 1
      invariant forall k {:trigger curr[k]} :: 0 <= k <= j ==> curr[k] == Dist(s1, s2, i + 1, k)
    {
      var cost := if s1[i] == s2[j] then 0 else 1;
      curr := curr + [Min3(curr[j] + 1, prev[j + 1] + 1, prev[j] + cost)];
      j := j + 1;
    }
  }
}
