/**
 * The common result of every heuristic (backend/src/detection/heuristics/base.py) and the way
 * three of the four build it: each triggered check appends an indicator and raises the score to
 * at least its floor, `score = max(score, floor)`, starting from 0.
 */
module Heuristic {
  import opened Options

  datatype HeuristicResult = HeuristicResult(name: string, score: real, indicators: seq<string>)

  /** One triggered check: the indicator it appends and the floor it raises the score to. */
  datatype Finding = Finding(indicator: string, floor: real)

  function Max(a: real, b: real): real {
    if a >= b then a else b
  }

  /** The score after appending every finding in turn. */
  function RunningMax(fs: seq<Finding>): (score: real)
    ensures score >= 0.0
  {
    if |fs| == 0 then 0.0 else Max(RunningMax(fs[..|fs| - 1]), fs[|fs| - 1].floor)
  }

  /** The score is at least every finding's floor, and is one of them unless it is 0. */
  lemma {:induction false} RunningMaxBounds(fs: seq<Finding>)
    ensures forall k :: 0 <= k < |fs| ==> fs[k].floor <= RunningMax(fs)
    ensures RunningMax(fs) == 0.0 || exists k :: 0 <= k < |fs| && RunningMax(fs) == fs[k].floor
  {
    if |fs| > 0 {
      var init := fs[..|fs| - 1];
      RunningMaxBounds(init);
      assert forall k :: 0 <= k < |init| ==> init[k] == fs[k];
    }
  }

  function Indicators(fs: seq<Finding>): (texts: seq<string>)
    ensures |texts| == |fs|
    ensures forall k :: 0 <= k < |fs| ==> texts[k] == fs[k].indicator
  {
    seq(|fs|, k requires 0 <= k < |fs| => fs[k].indicator)
  }

  /** The result a heuristic returns after its checks produced `fs`. */
  function Report(name: string, fs: seq<Finding>): HeuristicResult {
    HeuristicResult(name, RunningMax(fs), Indicators(fs))
  }

  predicate FloorsPositive(fs: seq<Finding>) {
    forall k :: 0 <= k < |fs| ==> fs[k].floor > 0.0
  }

  /** With positive floors, the score is 0 exactly when nothing was found. */
  lemma ScoreZeroIffNoIndicators(name: string, fs: seq<Finding>)
    requires FloorsPositive(fs)
    ensures Report(name, fs).score == 0.0 <==> |Report(name, fs).indicators| == 0
  {
    if |fs| > 0 {
      RunningMaxBounds(fs);
    }
  }

  /** The score of a concatenation is the larger of the two scores. */
  lemma {:induction false} RunningMaxAppend(a: seq<Finding>, b: seq<Finding>)
    ensures RunningMax(a + b) == Max(RunningMax(a), RunningMax(b))
    decreases |b|
  {
    if |b| > 0 {
      assert (a + b)[..|a + b| - 1] == a + b[..|b| - 1];
      RunningMaxAppend(a, b[..|b| - 1]);
    } else {
      assert a + b == a;
    }
  }

  /** The findings of running `check` on every element in turn (a `for` loop over checks). */
  function Collect<T>(xs: seq<T>, check: T -> seq<Finding>): seq<Finding> {
    if |xs| == 0 then [] else Collect(xs[..|xs| - 1], check) + check(xs[|xs| - 1])
  }

  /** The loop over `a + b` reports `a`'s findings, then `b`'s. */
  lemma {:induction false} CollectAppend<T>(a: seq<T>, b: seq<T>, check: T -> seq<Finding>)
    ensures Collect(a + b, check) == Collect(a, check) + Collect(b, check)
    decreases |b|
  {
    if |b| == 0 {
      assert a + b == a;
    } else {
      var init := b[..|b| - 1];
      assert (a + b)[..|a + b| - 1] == a + init;
      CollectAppend(a, init, check);
    }
  }

  /** Each element's findings form one block, between those of the elements before it and
      those of the elements after it. */
  lemma {:induction false} CollectSplit<T>(xs: seq<T>, check: T -> seq<Finding>, i: nat)
    requires i < |xs|
    ensures Collect(xs, check) == Collect(xs[..i], check) + check(xs[i]) + Collect(xs[i + 1..], check)
  {
    var pre, one, post := xs[..i], [xs[i]], xs[i + 1..];
    assert xs == pre + (one + post);
    CollectAppend(pre, one + post, check);
    CollectAppend(one, post, check);
    assert one[..0] == [];
    assert Collect(one, check) == Collect([], check) + check(xs[i]);
  }

  /** The texts of appended findings are the texts of each part, appended. */
  lemma IndicatorsAppend(a: seq<Finding>, b: seq<Finding>)
    ensures Indicators(a + b) == Indicators(a) + Indicators(b)
  {
  }

  /** 1 for a check that fires, 0 for one that does not. */
  function Flag(b: bool): nat {
    if b then 1 else 0
  }

  /** Some element of `xs` satisfies `p`. */
  predicate Any<T>(xs: seq<T>, p: T -> bool) {
    exists i :: 0 <= i < |xs| && p(xs[i])
  }

  lemma AnySplit<T>(xs: seq<T>, p: T -> bool)
    requires |xs| > 0
    ensures Any(xs, p) <==> Any(xs[..|xs| - 1], p) || p(xs[|xs| - 1])
  {
    var init := xs[..|xs| - 1];
    if Any(xs, p) {
      var i :| 0 <= i < |xs| && p(xs[i]);
      if i < |init| {
        assert init[i] == xs[i];
      }
    }
    if Any(init, p) {
      var i :| 0 <= i < |init| && p(init[i]);
      assert xs[i] == init[i];
    }
  }

  /** Appending keeps every finding, and positive floors, and scores the larger score. */
  lemma Joined(a: seq<Finding>, b: seq<Finding>)
    requires FloorsPositive(a) && FloorsPositive(b)
    ensures FloorsPositive(a + b)
    ensures RunningMax(a + b) == Max(RunningMax(a), RunningMax(b))
    ensures forall f :: f in a ==> f in a + b
  {
    RunningMaxAppend(a, b);
    FloorsPositiveAppend(a, b);
  }

  lemma FloorsPositiveAppend(a: seq<Finding>, b: seq<Finding>)
    requires FloorsPositive(a) && FloorsPositive(b)
    ensures FloorsPositive(a + b)
  {
    forall k | 0 <= k < |a + b| ensures (a + b)[k].floor > 0.0 {
      if k < |a| {
        assert (a + b)[k] == a[k];
      } else {
        assert (a + b)[k] == b[k - |a|];
      }
    }
  }

  /** If every element's checks score `high` when `hi` holds of it, else `low` when `lo` holds,
      else 0, the loop over all elements scores the same way with "some element" in place of
      "the element". */
  lemma {:induction false} CollectScore<T>(xs: seq<T>, check: T -> seq<Finding>, hi: T -> bool, lo: T -> bool,
                                           high: real, low: real)
    requires 0.0 < low <= high
    requires forall x :: FloorsPositive(check(x))
    requires forall x :: RunningMax(check(x)) == if hi(x) then high else if lo(x) then low else 0.0
    ensures FloorsPositive(Collect(xs, check))
    ensures RunningMax(Collect(xs, check)) ==
      if Any(xs, hi) then high else if Any(xs, lo) then low else 0.0
  {
    if |xs| > 0 {
      var init := xs[..|xs| - 1];
      var last := xs[|xs| - 1];
      CollectScore(init, check, hi, lo, high, low);
      RunningMaxAppend(Collect(init, check), check(last));
      FloorsPositiveAppend(Collect(init, check), check(last));
      AnySplit(xs, hi);
      AnySplit(xs, lo);
    }
  }

  /** A check that appends `f` when `cond` holds. */
  function Check(cond: bool, f: Finding): (fs: seq<Finding>)
    requires f.floor > 0.0
    ensures FloorsPositive(fs)
    ensures |fs| <= 1 && |fs| == Flag(cond)
    ensures cond ==> fs[0] == f
    ensures RunningMax(fs) == if cond then f.floor else 0.0
  {
    if cond then [f] else []
  }

  /** The largest value `f` takes on `xs`, or 0. */
  function Peak<T>(xs: seq<T>, f: T -> real): (m: real)
    ensures m >= 0.0
    ensures forall i :: 0 <= i < |xs| ==> f(xs[i]) <= m
    ensures m == 0.0 || exists i :: 0 <= i < |xs| && m == f(xs[i])
  {
    if |xs| == 0 then 0.0 else Max(Peak(xs[..|xs| - 1], f), f(xs[|xs| - 1]))
  }

  /** The loop over all elements scores the peak of what each element's checks score. */
  lemma {:induction false} CollectPeak<T>(xs: seq<T>, check: T -> seq<Finding>, f: T -> real)
    requires forall x :: RunningMax(check(x)) == f(x)
    ensures RunningMax(Collect(xs, check)) == Peak(xs, f)
  {
    if |xs| > 0 {
      CollectPeak(xs[..|xs| - 1], check, f);
      RunningMaxAppend(Collect(xs[..|xs| - 1], check), check(xs[|xs| - 1]));
    }
  }

  lemma {:induction false} CollectPositive<T>(xs: seq<T>, check: T -> seq<Finding>)
    requires forall x :: FloorsPositive(check(x))
    ensures FloorsPositive(Collect(xs, check))
  {
    if |xs| > 0 {
      CollectPositive(xs[..|xs| - 1], check);
      FloorsPositiveAppend(Collect(xs[..|xs| - 1], check), check(xs[|xs| - 1]));
    }
  }

  /** Every finding of every element's checks is among the findings of the loop. */
  lemma {:induction false} CollectIncludes<T>(xs: seq<T>, check: T -> seq<Finding>, i: nat, f: Finding)
    requires i < |xs| && f in check(xs[i])
    ensures f in Collect(xs, check)
  {
    var init := xs[..|xs| - 1];
    if i < |xs| - 1 {
      assert init[i] == xs[i];
      CollectIncludes(init, check, i, f);
    }
  }

  /** The loop appends at most `n` findings per element when each element's checks do. */
  lemma {:induction false} CollectLength<T>(xs: seq<T>, check: T -> seq<Finding>, n: nat)
    requires forall x :: |check(x)| <= n
    ensures |Collect(xs, check)| <= n * |xs|
  {
    if |xs| > 0 {
      CollectLength(xs[..|xs| - 1], check, n);
    }
  }

  /** The finding a lookup contributes: one indicator naming what it found, or none. */
  function When(found: Option<string>, floor: real, text: string -> string): (fs: seq<Finding>)
    requires floor > 0.0
    ensures FloorsPositive(fs)
    ensures |fs| <= 1 && |fs| == Flag(found.Some?)
    ensures found.Some? ==> fs[0] == Finding(text(found.value), floor)
    ensures RunningMax(fs) == if found.Some? then floor else 0.0
  {
    match found
    case Some(b) => [Finding(text(b), floor)]
    case None => []
  }

  /** If no element's value exceeds `top`, and it reaches `top` exactly when `p` holds, the peak
      is `top` exactly when some element satisfies `p`. */
  lemma PeakTop<T>(xs: seq<T>, f: T -> real, top: real, p: T -> bool)
    requires top > 0.0
    requires forall x :: f(x) <= top && (f(x) == top <==> p(x))
    ensures Peak(xs, f) == top <==> Any(xs, p)
  {
    if Any(xs, p) {
      var i :| 0 <= i < |xs| && p(xs[i]);
      assert f(xs[i]) == top;
    }
    if Peak(xs, f) == top {
      var i :| 0 <= i < |xs| && Peak(xs, f) == f(xs[i]);
      assert p(xs[i]);
    }
  }
}
