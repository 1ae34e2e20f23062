/** The list passes the script performs over DOM query results: "does
    any element qualify", "the first element that yields a reading", and
    "the readings of all elements, in order". */
module Lists {
  import opened Text

  /** `xs.some(p)`, written as the script's early-returning `for … of`
      loop: the scan finds an element satisfying `p`. */
  method AnyMatch<T>(xs: seq<T>, p: T -> bool) returns (found: bool)
    ensures found <==> exists i :: 0 <= i < |xs| && p(xs[i])
  {
    found := false;
    var i := 0;
    while i < |xs| && !found
      invariant i <= |xs|
      invariant found <==> exists k :: 0 <= k < i && p(xs[k])
    {
      found := p(xs[i]);
      i := i + 1;
    }
  }

  /** The first element at or after `from` that `f` yields a reading
      for: its index and the reading. */
  function FirstReading<T, U>(xs: seq<T>, f: T -> Option<U>, from: nat): (r: Option<(nat, U)>)
    requires from <= |xs|
    ensures r.Some? ==> from <= r.value.0 < |xs| && f(xs[r.value.0]) == Some(r.value.1)
    ensures r.Some? ==> forall k :: from <= k < r.value.0 ==> f(xs[k]).None?
    decreases |xs| - from
  {
    if from == |xs| then None
    else match f(xs[from])
      case Some(u) => Some((from, u))
      case None => FirstReading(xs, f, from + 1)
  }

  /** The search returns the first element with a reading … */
  lemma {:induction false} FirstReadingAt<T, U>(xs: seq<T>, f: T -> Option<U>, from: nat, i: nat)
    requires from <= i < |xs| && f(xs[i]).Some?
    requires forall k :: from <= k < i ==> f(xs[k]).None?
    ensures FirstReading(xs, f, from) == Some((i, f(xs[i]).value))
    decreases i - from
  {
    if from < i {
      FirstReadingAt(xs, f, from + 1, i);
    }
  }

  /** … and nothing when no element has one. */
  lemma {:induction false} FirstReadingNone<T, U>(xs: seq<T>, f: T -> Option<U>, from: nat)
    requires from <= |xs|
    requires forall k :: from <= k < |xs| ==> f(xs[k]).None?
    ensures FirstReading(xs, f, from).None?
    decreases |xs| - from
  {
    if from < |xs| {
      FirstReadingNone(xs, f, from + 1);
    }
  }

  /** The readings `f` yields, in the order of `xs`, skipping elements
      without one: a `forEach` that pushes only what qualifies. */
  function Collect<T, U(==, !new)>(xs: seq<T>, f: T -> Option<U>): (r: seq<U>)
    ensures |r| <= |xs|
    ensures |r| == Qualifying(xs, f)
    ensures forall u :: u in r <==> exists i :: 0 <= i < |xs| && f(xs[i]) == Some(u)
  {
    if xs == [] then []
    else
      var rest := Collect(xs[1..], f);
      assert forall i :: 0 < i < |xs| ==> xs[i] == xs[1..][i - 1];
      (match f(xs[0])
       case None => []
       case Some(u) => [u]) + rest
  }

  /** How many elements of `xs` have a reading. */
  function Qualifying<T, U>(xs: seq<T>, f: T -> Option<U>): nat {
    if xs == [] then 0 else (if f(xs[0]).Some? then 1 else 0) + Qualifying(xs[1..], f)
  }

  /** Collecting is a fold over the list: a split list collects to the
      readings of its first part, then those of its second. */
  lemma {:induction false} CollectAppend<T, U(!new)>(xs: seq<T>, ys: seq<T>, f: T -> Option<U>)
    ensures Collect(xs + ys, f) == Collect(xs, f) + Collect(ys, f)
    decreases |xs|
  {
    if xs == [] {
      assert xs + ys == ys;
    } else {
      assert (xs + ys)[0] == xs[0];
      assert (xs + ys)[1..] == xs[1..] + ys;
      CollectAppend(xs[1..], ys, f);
    }
  }
}
