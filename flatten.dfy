/** Concatenating what a visitor collects from each element in turn. */
module Flatten {

  /** `f(xs[0]) + f(xs[1]) + …`: what a visitor pushing `f(x)` for each `x`
      of `xs`, in order, ends up with. */
  function FlatMap<A, B>(xs: seq<A>, f: A -> seq<B>): seq<B> {
    if xs == [] then [] else FlatMap(xs[..|xs| - 1], f) + f(xs[|xs| - 1])
  }

  /** Visiting one more element appends what it contributes. */
  lemma FlatMapStep<A, B>(xs: seq<A>, f: A -> seq<B>, n: nat)
    requires n < |xs|
    ensures FlatMap(xs[..n + 1], f) == FlatMap(xs[..n], f) + f(xs[n])
  {
    assert xs[..n + 1][..n] == xs[..n];
  }

  /** A draw below the number of candidates picks that very candidate. */
  lemma ModBelow(k: nat, n: nat)
    requires k < n
    ensures k % n == k
  {
  }

  /** What the first element contributes comes first. */
  lemma {:induction false} FlatMapCons<A, B>(xs: seq<A>, f: A -> seq<B>)
    requires |xs| > 0
    ensures FlatMap(xs, f) == f(xs[0]) + FlatMap(xs[1..], f)
    decreases |xs|
  {
    var n := |xs| - 1;
    if n == 0 {
      assert xs[1..] == [];
    } else {
      FlatMapCons(xs[..n], f);
      assert xs[..n][1..] == xs[1..][..n - 1];
      assert xs[..n][0] == xs[0] && xs[1..][n - 1] == xs[n];
    }
  }

  /** Something is collected exactly when some element contributes it. */
  lemma {:induction false} FlatMapMember<A, B>(xs: seq<A>, f: A -> seq<B>, y: B)
    ensures y in FlatMap(xs, f) <==> exists i :: 0 <= i < |xs| && y in f(xs[i])
  {
    if xs != [] {
      var n := |xs| - 1;
      FlatMapMember(xs[..n], f, y);
      if y in FlatMap(xs[..n], f) {
        var i :| 0 <= i < n && y in f(xs[..n][i]);
        assert y in f(xs[i]);
      }
      if exists i :: 0 <= i < |xs| && y in f(xs[i]) {
        var i :| 0 <= i < |xs| && y in f(xs[i]);
        if i < n {
          assert y in f(xs[..n][i]);
        }
      }
    }
  }

  /** The sum of `f` over `xs`. */
  function SumOf<A>(xs: seq<A>, f: A -> nat): nat {
    if xs == [] then 0 else SumOf(xs[..|xs| - 1], f) + f(xs[|xs| - 1])
  }

  lemma SumOfStep<A>(xs: seq<A>, f: A -> nat, n: nat)
    requires n < |xs|
    ensures SumOf(xs[..n + 1], f) == SumOf(xs[..n], f) + f(xs[n])
  {
    assert xs[..n + 1][..n] == xs[..n];
  }

  /** Sums split at a concatenation. */
  lemma {:induction false} SumOfAppend<A>(xs: seq<A>, ys: seq<A>, f: A -> nat)
    ensures SumOf(xs + ys, f) == SumOf(xs, f) + SumOf(ys, f)
    decreases |ys|
  {
    if ys != [] {
      var n := |ys| - 1;
      assert (xs + ys)[..|xs + ys| - 1] == xs + ys[..n];
      SumOfAppend(xs, ys[..n], f);
    } else {
      assert xs + ys == xs;
    }
  }

  /** A sum of terms that are each at least one is at least the number of
      terms. */
  lemma {:induction false} SumOfAtLeastLength<A>(xs: seq<A>, f: A -> nat)
    requires forall i :: 0 <= i < |xs| ==> f(xs[i]) >= 1
    ensures SumOf(xs, f) >= |xs|
  {
    if xs != [] {
      var n := |xs| - 1;
      assert forall i :: 0 <= i < n ==> xs[..n][i] == xs[i];
      SumOfAtLeastLength(xs[..n], f);
    }
  }
}
