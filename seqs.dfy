/** Searches over sequences: the first element satisfying a test, and filtering. */
module Seqs {
  import opened Wrappers

  /** The index of the first element of `xs`, at or after `from`, that satisfies `p`. */
  function FirstWhere<T>(xs: seq<T>, p: T -> bool, from: nat): (r: Option<nat>)
    requires from <= |xs|
    ensures r.None? <==> forall j :: from <= j < |xs| ==> !p(xs[j])
    ensures r.Some? ==> from <= r.value < |xs| && p(xs[r.value])
    ensures r.Some? ==> forall j :: from <= j < r.value ==> !p(xs[j])
    decreases |xs| - from
  {
    if from == |xs| then None
    else if p(xs[from]) then Some(from)
    else FirstWhere(xs, p, from + 1)
  }

  /** The elements of `xs` that satisfy `p`, in their order in `xs`. */
  function Filter<T(!new)>(xs: seq<T>, p: T -> bool): (r: seq<T>)
    ensures forall x {:trigger multiset(r)[x]} ::
              multiset(r)[x] == if p(x) then multiset(xs)[x] else 0
    ensures r == [] <==> forall i :: 0 <= i < |xs| ==> !p(xs[i])
  {
    if xs == [] then []
    else
      var rest := Filter(xs[1..], p);
      assert xs == [xs[0]] + xs[1..];
      if p(xs[0]) then [xs[0]] + rest else rest
  }

  /** The head of a filtered sequence is the first element that satisfies the test. */
  lemma {:induction false} FilterHead<T(!new)>(xs: seq<T>, p: T -> bool, i: nat)
    requires i < |xs| && p(xs[i])
    requires forall j :: 0 <= j < i ==> !p(xs[j])
    ensures Filter(xs, p) != [] && Filter(xs, p)[0] == xs[i]
  {
    if i > 0 {
      FilterHead(xs[1..], p, i - 1);
    }
  }

  /** Filtering distributes over concatenation, so the kept elements stay in order. */
  lemma {:induction false} FilterAppend<T(!new)>(xs: seq<T>, ys: seq<T>, p: T -> bool)
    ensures Filter(xs + ys, p) == Filter(xs, p) + Filter(ys, p)
  {
    if xs == [] {
      assert xs + ys == ys;
    } else {
      assert (xs + ys)[0] == xs[0];
      assert (xs + ys)[1..] == xs[1..] + ys;
      FilterAppend(xs[1..], ys, p);
    }
  }
}
