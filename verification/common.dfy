/**
  Failure-carrying datatypes and the array operations the services and the
  store slices build on (`find`, `findIndex`, `filter`, `splice(i, 1)`).
  A JavaScript `null`/`undefined` becomes `None`, a thrown `Error` becomes
  `Err` with the error's message.
*/
module Common {

  datatype Option<+T> = None | Some(value: T)

  /** A value, or the message of the error the source throws or returns. */
  datatype Result<+T> = Ok(value: T) | Err(error: string)

  /** The answer of a collaborator call that returns nothing on success. */
  datatype Outcome = Pass | Fail(error: string)

  /** `Array.prototype.findIndex`, with `None` in place of -1. */
  function FindIndex<T>(xs: seq<T>, p: T -> bool): (r: Option<nat>)
    ensures r.Some? ==> r.value < |xs| && p(xs[r.value])
    ensures r.Some? ==> forall j :: 0 <= j < r.value ==> !p(xs[j])
    ensures r.None? ==> forall j :: 0 <= j < |xs| ==> !p(xs[j])
  {
    if |xs| == 0 then None
    else if p(xs[0]) then Some(0)
    else match FindIndex(xs[1..], p)
      case None => None
      case Some(i) => Some(i + 1)
  }

  /** An element satisfying `p` with none before it is what `FindIndex` finds. */
  lemma FindIndexAt<T>(xs: seq<T>, p: T -> bool, i: nat)
    requires i < |xs| && p(xs[i])
    requires forall j :: 0 <= j < i ==> !p(xs[j])
    ensures FindIndex(xs, p) == Some(i)
  {
  }

  /** `Array.prototype.find` followed by `|| null`: the first element satisfying `p`. */
  function Find<T>(xs: seq<T>, p: T -> bool): (r: Option<T>)
    ensures r.Some? <==> exists j :: 0 <= j < |xs| && p(xs[j])
    ensures r.Some? ==> p(r.value) && r.value in xs
    ensures r.Some? ==> exists i :: 0 <= i < |xs| && xs[i] == r.value && forall j :: 0 <= j < i ==> !p(xs[j])
  {
    match FindIndex(xs, p)
    case None => None
    case Some(i) => Some(xs[i])
  }

  /**
    `Array.prototype.filter`: the elements satisfying `p`. That they come in
    their original order, each as often as in `xs`, is `FilterAppend`.
  */
  function Filter<T>(xs: seq<T>, p: T -> bool): (r: seq<T>)
    ensures |r| <= |xs|
    ensures forall j :: 0 <= j < |r| ==> p(r[j]) && r[j] in xs
    ensures forall j :: 0 <= j < |xs| && p(xs[j]) ==> xs[j] in r
  {
    if |xs| == 0 then []
    else (if p(xs[0]) then [xs[0]] else []) + Filter(xs[1..], p)
  }

  /** `splice(i, 1)`: the sequence without its `i`-th element, the rest in order. */
  function RemoveAt<T>(xs: seq<T>, i: nat): (r: seq<T>)
    requires i < |xs|
    ensures |r| == |xs| - 1
    ensures forall j :: 0 <= j < i ==> r[j] == xs[j]
    ensures forall j :: i <= j < |r| ==> r[j] == xs[j + 1]
    ensures multiset(r) + multiset{xs[i]} == multiset(xs)
  {
    assert xs == xs[..i] + [xs[i]] + xs[i + 1..];
    xs[..i] + xs[i + 1..]
  }

  /** Filtering a concatenation filters each part: `Filter` keeps the order of its input. */
  lemma {:induction false} FilterAppend<T>(a: seq<T>, b: seq<T>, p: T -> bool)
    ensures Filter(a + b, p) == Filter(a, p) + Filter(b, p)
  {
    if |a| == 0 {
      assert a + b == b;
    } else {
      assert (a + b)[1..] == a[1..] + b;
      FilterAppend(a[1..], b, p);
    }
  }

  /** Filtering by a predicate every element satisfies changes nothing. */
  lemma {:induction false} FilterKeepsAll<T>(xs: seq<T>, p: T -> bool)
    requires forall j :: 0 <= j < |xs| ==> p(xs[j])
    ensures Filter(xs, p) == xs
  {
    if |xs| > 0 {
      FilterKeepsAll(xs[1..], p);
    }
  }

  /** Filtering twice by the same predicate is filtering once. */
  lemma {:induction false} FilterIdempotent<T>(xs: seq<T>, p: T -> bool)
    ensures Filter(Filter(xs, p), p) == Filter(xs, p)
  {
    var r := Filter(xs, p);
    FilterKeepsAll(r, p);
  }

  /** Filtering out one rejected element between two accepted runs removes just that element. */
  lemma {:induction false} FilterDropsOne<T>(before: seq<T>, x: T, after: seq<T>, p: T -> bool)
    requires forall j :: 0 <= j < |before| ==> p(before[j])
    requires forall j :: 0 <= j < |after| ==> p(after[j])
    requires !p(x)
    ensures Filter(before + [x] + after, p) == before + after
  {
    var front := before + [x];
    FilterAppend(front, after, p);
    FilterAppend(before, [x], p);
    FilterKeepsAll(before, p);
    FilterKeepsAll(after, p);
    assert Filter([x], p) == [] + Filter([x][1..], p);
    assert Filter(front, p) == before;
  }
}
