/** The optional value used wherever the Python code returns `None` for "nothing found". */
module Options {

  datatype Option<+T> = None | Some(value: T) {

    /** The wrapped value, or `default` when there is none. */
    function GetOr(default: T): T {
      match this
      case Some(v) => v
      case None => default
    }
  }

  /** Index of the first element of `xs`, from position `from` on, that satisfies `p`
      (the shape of a Python `for x in xs: if p(x): return x` loop). */
  function FindFirst<T>(xs: seq<T>, p: T -> bool, from: nat := 0): (r: Option<nat>)
    ensures r.Some? ==> from <= r.value < |xs| && p(xs[r.value])
    ensures r.Some? ==> forall j :: from <= j < r.value ==> !p(xs[j])
    ensures r.None? ==> forall j :: from <= j < |xs| ==> !p(xs[j])
    decreases |xs| - from
  {
    if from >= |xs| then None
    else if p(xs[from]) then Some(from)
    else FindFirst(xs, p, from + 1)
  }
}
