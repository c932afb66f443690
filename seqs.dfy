/** Sequence helpers shared by the list-building code: filtered positions and concatenated blocks. */
module Seqs {

  /** The positions below `n` whose element satisfies `p`, in increasing order. */
  function Positions<T>(xs: seq<T>, p: T -> bool, n: nat): (r: seq<nat>)
    requires n <= |xs|
    ensures |r| <= n
    ensures forall i :: 0 <= i < |r| ==> r[i] < n
    decreases n
  {
    if n == 0 then [] else Positions(xs, p, n - 1) + (if p(xs[n - 1]) then [n - 1] else [])
  }

  /** `Positions` lists exactly the satisfying positions, each once, in increasing order. */
  lemma {:induction false} PositionsExact<T>(xs: seq<T>, p: T -> bool, n: nat)
    requires n <= |xs|
    ensures forall i: nat :: i in Positions(xs, p, n) <==> i < n && p(xs[i])
    ensures forall i, j :: 0 <= i < j < |Positions(xs, p, n)| ==> Positions(xs, p, n)[i] < Positions(xs, p, n)[j]
    decreases n
  {
    if n > 0 {
      PositionsExact(xs, p, n - 1);
    }
  }

  /** The blocks `f(x)` of the elements of `xs`, one after the other. */
  function FlatMap<T, U>(xs: seq<T>, f: T -> seq<U>): seq<U>
    decreases |xs|
  {
    if |xs| == 0 then [] else FlatMap(xs[..|xs| - 1], f) + f(xs[|xs| - 1])
  }

  lemma FlatMapSnoc<T, U>(xs: seq<T>, x: T, f: T -> seq<U>)
    ensures FlatMap(xs + [x], f) == FlatMap(xs, f) + f(x)
  {
    assert (xs + [x])[..|xs|] == xs;
  }

  /** A block of one element: the loop that appends it one element at a time gets the same list. */
  lemma FlatMapPrefix<T, U>(xs: seq<T>, i: nat, f: T -> seq<U>)
    requires i < |xs|
    ensures FlatMap(xs[..i + 1], f) == FlatMap(xs[..i], f) + f(xs[i])
  {
    assert xs[..i + 1] == xs[..i] + [xs[i]];
    FlatMapSnoc(xs[..i], xs[i], f);
  }

  /** One more block appended after a prefix `sb` keeps the loop's invariant. */
  lemma FlatMapAppend<T, U>(sb: seq<U>, xs: seq<T>, i: nat, f: T -> seq<U>)
    requires i < |xs|
    ensures sb + FlatMap(xs[..i], f) + f(xs[i]) == sb + FlatMap(xs[..i + 1], f)
  {
    FlatMapPrefix(xs, i, f);
  }

  /** `Positions` below `n` depends only on the first `n` elements. */
  lemma {:induction false} PositionsPrefix<T>(xs: seq<T>, ys: seq<T>, p: T -> bool, n: nat)
    requires n <= |xs| && n <= |ys| && xs[..n] == ys[..n]
    ensures Positions(xs, p, n) == Positions(ys, p, n)
    decreases n
  {
    if n > 0 {
      assert xs[n - 1] == xs[..n][n - 1] == ys[n - 1];
      assert xs[..n - 1] == xs[..n][..n - 1];
      assert ys[..n - 1] == ys[..n][..n - 1];
      PositionsPrefix(xs, ys, p, n - 1);
    }
  }

  /** `f` applied to each element of `xs`, in order. */
  function Map<T, U>(xs: seq<T>, f: T -> U): (r: seq<U>)
    ensures |r| == |xs|
    ensures forall i :: 0 <= i < |xs| ==> r[i] == f(xs[i])
    decreases |xs|
  {
    if |xs| == 0 then [] else Map(xs[..|xs| - 1], f) + [f(xs[|xs| - 1])]
  }

  /** The loop that maps one element at a time gets the same list. */
  lemma MapPrefix<T, U>(xs: seq<T>, i: nat, f: T -> U)
    requires i < |xs|
    ensures Map(xs[..i + 1], f) == Map(xs[..i], f) + [f(xs[i])]
  {
    assert xs[..i + 1][..i] == xs[..i];
  }

  /** Mapping a prefix gives the prefix of the mapped list. */
  lemma MapTake<T, U>(xs: seq<T>, n: nat, f: T -> U)
    requires n <= |xs|
    ensures Map(xs, f)[..n] == Map(xs[..n], f)
  {
  }
}
