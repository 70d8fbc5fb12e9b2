/** Rust's order on strings and on tuples of strings, and the
    `sort_by` + `dedup_by` idiom the TTDN lists go through. */
module Ordering {

  /** `String`'s `Ord`: lexicographic by character, a proper prefix first. */
  predicate StrLess(a: string, b: string)
    decreases |a|
  {
    if a == [] then b != []
    else b != [] && (a[0] < b[0] || (a[0] == b[0] && StrLess(a[1..], b[1..])))
  }

  lemma {:induction false} StrLessIrreflexive(a: string)
    ensures !StrLess(a, a)
    decreases |a|
  {
    if a != [] {
      StrLessIrreflexive(a[1..]);
    }
  }

  lemma {:induction false} StrLessTransitive(a: string, b: string, c: string)
    requires StrLess(a, b) && StrLess(b, c)
    ensures StrLess(a, c)
    decreases |a|
  {
    if a != [] && a[0] == b[0] && b[0] == c[0] {
      StrLessTransitive(a[1..], b[1..], c[1..]);
    }
  }

  lemma {:induction false} StrLessTotal(a: string, b: string)
    ensures a == b || StrLess(a, b) || StrLess(b, a)
    decreases |a|
  {
    if a != [] && b != [] && a[0] == b[0] {
      StrLessTotal(a[1..], b[1..]);
      if a[1..] == b[1..] {
        assert a == [a[0]] + a[1..] && b == [b[0]] + b[1..];
      }
    }
  }

  /** The derived `Ord` of a tuple of strings: lexicographic by component. */
  predicate KeyLess(a: seq<string>, b: seq<string>)
    decreases |a|
  {
    if a == [] then b != []
    else b != [] && (StrLess(a[0], b[0]) || (a[0] == b[0] && KeyLess(a[1..], b[1..])))
  }

  lemma {:induction false} KeyLessIrreflexive(a: seq<string>)
    ensures !KeyLess(a, a)
    decreases |a|
  {
    if a != [] {
      StrLessIrreflexive(a[0]);
      KeyLessIrreflexive(a[1..]);
    }
  }

  lemma {:induction false} KeyLessTransitive(a: seq<string>, b: seq<string>, c: seq<string>)
    requires KeyLess(a, b) && KeyLess(b, c)
    ensures KeyLess(a, c)
    decreases |a|
  {
    if a != [] {
      if StrLess(a[0], b[0]) && StrLess(b[0], c[0]) {
        StrLessTransitive(a[0], b[0], c[0]);
      } else if a[0] == b[0] && b[0] == c[0] {
        KeyLessTransitive(a[1..], b[1..], c[1..]);
      }
    }
  }

  lemma {:induction false} KeyLessTotal(a: seq<string>, b: seq<string>)
    ensures a == b || KeyLess(a, b) || KeyLess(b, a)
    decreases |a|
  {
    if a != [] && b != [] {
      StrLessTotal(a[0], b[0]);
      if a[0] == b[0] {
        KeyLessTotal(a[1..], b[1..]);
        if a[1..] == b[1..] {
          assert a == [a[0]] + a[1..] && b == [b[0]] + b[1..];
        }
      }
    }
  }

  /** The keys of `xs` strictly increase: sorted and free of duplicates. */
  ghost predicate StrictlySorted<T>(xs: seq<T>, key: T -> seq<string>) {
    forall i, j :: 0 <= i < j < |xs| ==> KeyLess(key(xs[i]), key(xs[j]))
  }

  /** The keys of the elements of `xs`. */
  ghost function Keys<T>(xs: seq<T>, key: T -> seq<string>): set<seq<string>> {
    set x | x in xs :: key(x)
  }

  /** Inserting an element anywhere adds exactly its key. */
  lemma KeysInsert<T>(r: seq<T>, key: T -> seq<string>, x: T, p: nat)
    requires p <= |r|
    ensures forall y :: y in r[..p] + [x] + r[p..] <==> y in r || y == x
    ensures Keys(r[..p] + [x] + r[p..], key) == Keys(r, key) + {key(x)}
  {
    assert r == r[..p] + r[p..];
  }

  /** The position at which `x` belongs in the strictly sorted `r`: every
      key before it is smaller than `x`'s. */
  method Position<T>(r: seq<T>, key: T -> seq<string>, x: T) returns (p: nat)
    requires StrictlySorted(r, key)
    ensures p <= |r|
    ensures forall i :: 0 <= i < p ==> KeyLess(key(r[i]), key(x))
    ensures p < |r| ==> !KeyLess(key(r[p]), key(x))
  {
    p := 0;
    while p < |r| && KeyLess(key(r[p]), key(x))
      invariant p <= |r|
      invariant forall i :: 0 <= i < p ==> KeyLess(key(r[i]), key(x))
    {
      p := p + 1;
    }
  }

  /** Inserting `x` at its position keeps the keys strictly increasing
      when no element already has `x`'s key. */
  lemma InsertSorted<T>(r: seq<T>, key: T -> seq<string>, x: T, p: nat)
    requires StrictlySorted(r, key)
    requires p <= |r|
    requires forall i :: 0 <= i < p ==> KeyLess(key(r[i]), key(x))
    requires p < |r| ==> KeyLess(key(x), key(r[p]))
    ensures StrictlySorted(r[..p] + [x] + r[p..], key)
  {
    forall m | p < m < |r|
      ensures KeyLess(key(x), key(r[m]))
    {
      KeyLessTransitive(key(x), key(r[p]), key(r[m]));
    }
    var s := r[..p] + [x] + r[p..];
    forall i, j | 0 <= i < j < |s|
      ensures KeyLess(key(s[i]), key(s[j]))
    {
      if j > p && i < p {
        KeyLessTransitive(key(r[i]), key(x), key(r[j - 1]));
      }
    }
  }

  /** `v.sort_by(key); v.dedup_by(key)`: the result's keys strictly
      increase, every element comes from `xs`, and no key of `xs` is lost. */
  method SortDedup<T>(xs: seq<T>, key: T -> seq<string>) returns (r: seq<T>)
    ensures StrictlySorted(r, key)
    ensures forall y :: y in r ==> y in xs
    ensures Keys(r, key) == Keys(xs, key)
  {
    r := [];
    var n := 0;
    while n < |xs|
      invariant n <= |xs|
      invariant StrictlySorted(r, key)
      invariant forall y :: y in r ==> y in xs[..n]
      invariant Keys(r, key) == Keys(xs[..n], key)
    {
      var x := xs[n];
      KeysInsert(xs[..n], key, x, n);
      assert xs[..n + 1] == xs[..n][..n] + [x] + xs[..n][n..];
      var p := Position(r, key, x);
      if p < |r| && key(r[p]) == key(x) {
        assert r[p] in r;
      } else {
        if p < |r| {
          KeyLessTotal(key(r[p]), key(x));
        }
        InsertSorted(r, key, x, p);
        KeysInsert(r, key, x, p);
        r := r[..p] + [x] + r[p..];
      }
      n := n + 1;
    }
    assert xs[..n] == xs;
  }
}
