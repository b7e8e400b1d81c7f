/**
 * `Array.prototype.filter` and the `filter(...).length` counts the pages use,
 * with what they promise: the kept elements are an order-preserving
 * subsequence of the input, exactly the ones the test accepts, each as often
 * as it occurs in the input.
 */
module Seqs {

  /** `a` can be obtained from `b` by deleting elements, keeping the order of the rest. */
  predicate Subseq<T(==)>(a: seq<T>, b: seq<T>)
    decreases |b|
  {
    if a == [] then true
    else if b == [] then false
    else (a[0] == b[0] && Subseq(a[1..], b[1..])) || Subseq(a, b[1..])
  }

  /** `xs.filter(p)`. */
  function Filter<T(==)>(xs: seq<T>, p: T -> bool): (r: seq<T>)
    ensures Subseq(r, xs) && |r| <= |xs|
    ensures forall x :: x in r ==> x in xs && p(x)
    ensures forall x :: x in xs && p(x) ==> x in r
    decreases |xs|
  {
    if xs == [] then []
    else if p(xs[0]) then
      var rest := Filter(xs[1..], p);
      assert ([xs[0]] + rest)[1..] == rest;
      [xs[0]] + rest
    else Filter(xs[1..], p)
  }

  /** Filter keeps every accepted element as many times as it occurs and drops every other one. */
  lemma {:induction false} FilterMultiplicity<T>(xs: seq<T>, p: T -> bool, x: T)
    ensures multiset(Filter(xs, p))[x] == if p(x) then multiset(xs)[x] else 0
    decreases |xs|
  {
    if xs != [] {
      FilterMultiplicity(xs[1..], p, x);
      assert xs == [xs[0]] + xs[1..];
    }
  }

  /** A test that accepts everything keeps the whole sequence. */
  lemma {:induction false} FilterAll<T>(xs: seq<T>, p: T -> bool)
    requires forall x :: x in xs ==> p(x)
    ensures Filter(xs, p) == xs
    decreases |xs|
  {
    if xs != [] {
      FilterAll(xs[1..], p);
    }
  }

  /** `xs.filter(p).length`. */
  function Count<T(==)>(xs: seq<T>, p: T -> bool): (n: nat)
    ensures n <= |xs|
    ensures (forall x :: x in xs ==> p(x)) ==> n == |xs|
    ensures (forall x :: x in xs ==> !p(x)) ==> n == 0
    ensures n > 0 <==> exists x :: x in xs && p(x)
  {
    if forall x :: x in xs ==> p(x) then
      FilterAll(xs, p);
      |Filter(xs, p)|
    else
      var kept := Filter(xs, p);
      assert kept != [] ==> kept[0] in kept;
      |kept|
  }

  /** Count peels off one element at a time. */
  lemma CountCons<T>(xs: seq<T>, p: T -> bool)
    requires xs != []
    ensures Count(xs, p) == (if p(xs[0]) then 1 else 0) + Count(xs[1..], p)
  {
  }
}
