/** The outlive mutator: one mutation site per free function and
    inherent-impl method; the chosen signature gets an outlives relation
    between two of its lifetimes, introducing lifetimes when it has fewer
    than two. Its applier draws random lifetimes, so it is a method; the
    framework's `run` is restated for it in `Run`. */
module LifetimeOutlive {
  import opened Wrappers
  import opened Text
  import opened Syntax
  import opened Framework
  import opened FnSites

  /** What `collect` returns. */
  function SiteCount(file: File): nat {
    |FnSitesOf(file)|
  }

  /** The first index of `xs` whose element satisfies `p`. */
  function FirstWhere<T>(xs: seq<T>, p: T -> bool): (r: Option<nat>)
    ensures r.None? <==> forall j :: 0 <= j < |xs| ==> !p(xs[j])
    ensures r.Some? ==> r.value < |xs| && p(xs[r.value]) && forall j :: 0 <= j < r.value ==> !p(xs[j])
  {
    if xs == [] then None
    else if p(xs[0]) then Some(0)
    else
      var r := FirstWhere(xs[1..], p);
      if r.Some? then
        assert forall j :: 1 <= j < r.value + 1 ==> xs[j] == xs[1..][j - 1];
        Some(r.value + 1)
      else
        assert forall j :: 1 <= j < |xs| ==> xs[j] == xs[1..][j - 1];
        None
  }

  // ---------------------------------------------------------------------
  // Fresh lifetime names

  /** The `k`-th renaming of a lifetime name: `base_k`. */
  function Numbered(base: string, k: nat): string {
    base + "_" + NatToDigits(k)
  }

  function MaxLen(xs: seq<string>): (m: nat)
    ensures forall i :: 0 <= i < |xs| ==> |xs[i]| <= m
  {
    if xs == [] then 0
    else
      var rest := MaxLen(xs[1..]);
      assert forall i :: 1 <= i < |xs| ==> xs[i] == xs[1..][i - 1];
      if |xs[0]| > rest then |xs[0]| else rest
  }

  function Pow10(n: nat): (r: nat)
    ensures r >= 1
  {
    if n == 0 then 1 else 10 * Pow10(n - 1)
  }

  /** A number of at least `10^L` has more than `L` digits. */
  lemma {:induction false} DigitsLong(k: nat, len: nat)
    requires k >= Pow10(len)
    ensures |NatToDigits(k)| > len
  {
    if len > 0 {
      DigitsLong(k / 10, len - 1);
    }
  }

  /** `generate_unique_lifetime_name`: `base` when no lifetime parameter
      has that name, else `base_k` for the smallest `k >= 1` that is free.
      The search ends because names longer than every existing one are
      free. */
  method UniqueLifetimeName(existing: seq<string>, base: string) returns (name: string)
    ensures name !in existing
    ensures base !in existing ==> name == base
    ensures base in existing ==>
              exists k :: (k >= 1 && name == Numbered(base, k) &&
                           forall j :: 1 <= j < k ==> Numbered(base, j) in existing)
  {
    ghost var bound := Pow10(MaxLen(existing));
    var candidate := base;
    var counter := 0;
    while candidate in existing
      invariant counter <= bound
      invariant counter == 0 ==> candidate == base
      invariant counter >= 1 ==> candidate == Numbered(base, counter) && base in existing
      invariant forall j :: 1 <= j < counter ==> Numbered(base, j) in existing
      decreases bound - counter
    {
      if counter >= bound {
        DigitsLong(counter, MaxLen(existing));
        assert false;
      }
      counter := counter + 1;
      candidate := Numbered(base, counter);
    }
    name := candidate;
  }

  // ---------------------------------------------------------------------
  // Case of two or more lifetimes: `'b: 'a`

  /** Whether `p` is the lifetime parameter named `b`. */
  predicate IsLifetimeNamed(p: GenericParam, b: string) {
    p.LifetimeParam? && p.name == b
  }

  /** The parameters after adding `a` to the bounds of the first lifetime
      parameter named `b`, unless it is already there. */
  function AddOutlive(ps: seq<GenericParam>, b: string, a: string): (r: seq<GenericParam>)
    ensures |r| == |ps|
  {
    match FirstWhere(ps, (p: GenericParam) => IsLifetimeNamed(p, b))
    case None => ps
    case Some(k) =>
      if a in ps[k].outlives then ps else ps[k := ps[k].(outlives := ps[k].outlives + [a])]
  }

  /** No lifetime parameter lists a bound twice. */
  predicate DistinctBounds(ps: seq<GenericParam>) {
    forall k :: 0 <= k < |ps| && ps[k].LifetimeParam? ==>
      forall i, j :: 0 <= i < j < |ps[k].outlives| ==> ps[k].outlives[i] != ps[k].outlives[j]
  }

  /** Adding a bound keeps the same lifetimes. */
  lemma AddOutliveKeepsNames(ps: seq<GenericParam>, b: string, a: string)
    ensures LifetimeNames(AddOutlive(ps, b, a)) == LifetimeNames(ps)
  {
    var f := (p: GenericParam) => IsLifetimeNamed(p, b);
    match FirstWhere(ps, f)
    case None =>
    case Some(k) =>
      if a !in ps[k].outlives {
        NamesAfterUpdate(ps, k, ps[k].(outlives := ps[k].outlives + [a]));
      }
  }

  /** When `'b` is declared, `'b: 'a` holds afterwards. */
  lemma AddOutliveRecords(ps: seq<GenericParam>, b: string, a: string)
    requires b in LifetimeNames(ps)
    ensures exists k :: 0 <= k < |ps| && IsLifetimeNamed(AddOutlive(ps, b, a)[k], b) &&
                        a in AddOutlive(ps, b, a)[k].outlives
  {
    var f := (p: GenericParam) => IsLifetimeNamed(p, b);
    var o :| LifetimeParam(b, o) in ps;
    var i :| 0 <= i < |ps| && ps[i] == LifetimeParam(b, o);
    assert f(ps[i]);
    var k := FirstWhere(ps, f).value;
    assert IsLifetimeNamed(AddOutlive(ps, b, a)[k], b);
  }

  /** Adding a bound never duplicates one. */
  lemma AddOutliveDistinct(ps: seq<GenericParam>, b: string, a: string)
    requires DistinctBounds(ps)
    ensures DistinctBounds(AddOutlive(ps, b, a))
  {
    var f := (p: GenericParam) => IsLifetimeNamed(p, b);
    match FirstWhere(ps, f)
    case None =>
    case Some(k) =>
      if a !in ps[k].outlives {
        var r := AddOutlive(ps, b, a);
        var os := ps[k].outlives + [a];
        assert r[k].outlives == os;
        forall i, j | 0 <= i < j < |os|
          ensures os[i] != os[j]
        {
          if j == |os| - 1 {
            assert os[i] in ps[k].outlives;
          }
        }
      }
  }

  /** Changing a lifetime parameter's bounds keeps the lifetime names. */
  lemma {:induction false} NamesAfterUpdate(ps: seq<GenericParam>, k: nat, p: GenericParam)
    requires k < |ps| && ps[k].LifetimeParam? && p.LifetimeParam? && p.name == ps[k].name
    ensures LifetimeNames(ps[k := p]) == LifetimeNames(ps)
  {
    if k > 0 {
      NamesAfterUpdate(ps[1..], k - 1, p);
      assert ps[k := p][1..] == ps[1..][k - 1 := p];
    } else {
      assert ps[k := p][1..] == ps[1..];
    }
  }

  /** The loop that finds the parameter of `'b` and pushes `'a` onto its
      bounds when it is not there yet. */
  method PushOutlive(ps: seq<GenericParam>, b: string, a: string) returns (r: seq<GenericParam>)
    ensures r == AddOutlive(ps, b, a)
  {
    ghost var f := (p: GenericParam) => IsLifetimeNamed(p, b);
    r := ps;
    for k := 0 to |ps|
      invariant forall j :: 0 <= j < k ==> !f(ps[j])
    {
      if ps[k].LifetimeParam? && ps[k].name == b {
        assert FirstWhere(ps, f) == Some(k);
        if a !in ps[k].outlives {
          r := ps[k := ps[k].(outlives := ps[k].outlives + [a])];
        }
        return;
      }
    }
  }

  // ---------------------------------------------------------------------
  // Case of one lifetime: a new lifetime outliving it

  /** The arguments after the first by-value argument is made to borrow
      for `lt`; with no by-value argument nothing changes. */
  function WrapFirstValue(inputs: seq<FnArg>, lt: string): (r: seq<FnArg>)
    ensures |r| == |inputs|
  {
    match FirstWhere(inputs, IsValueArg)
    case None => inputs
    case Some(k) => inputs[k := WithLifetime(inputs[k], lt)]
  }

  /** The argument loop of the one-lifetime case. */
  method WrapFirstValueArg(inputs: seq<FnArg>, lt: string) returns (out: seq<FnArg>)
    ensures out == WrapFirstValue(inputs, lt)
  {
    out := inputs;
    for k := 0 to |inputs|
      invariant forall j :: 0 <= j < k ==> !IsValueArg(inputs[j])
    {
      if inputs[k].Typed? && !inputs[k].ty.RefTy? {
        assert FirstWhere(inputs, IsValueArg) == Some(k);
        return inputs[k := WithLifetime(inputs[k], lt)];
      }
    }
  }

  // ---------------------------------------------------------------------
  // Case of no lifetimes: two new lifetimes

  /** The arguments after the first borrows for `a` and the second for
      `b`; the rest are kept. */
  function ConvertedLeading(inputs: seq<FnArg>, a: string, b: string): (r: seq<FnArg>)
    ensures |r| == |inputs|
    ensures |inputs| >= 1 ==> r[0] == WithLifetime(inputs[0], a)
    ensures |inputs| >= 2 ==> r[1] == WithLifetime(inputs[1], b)
    ensures forall j :: 2 <= j < |inputs| ==> r[j] == inputs[j]
  {
    seq(|inputs|, j requires 0 <= j < |inputs| =>
      if j == 0 then WithLifetime(inputs[0], a)
      else if j == 1 then WithLifetime(inputs[1], b)
      else inputs[j])
  }

  /** The argument loop of the no-lifetime case: every kind of argument
      converts, so it stops after the first `min(2, n)`. */
  method ConvertLeading(inputs: seq<FnArg>, a: string, b: string) returns (out: seq<FnArg>)
    ensures out == ConvertedLeading(inputs, a, b)
  {
    var converted := 0;
    var goal := if 2 < |inputs| then 2 else |inputs|;
    out := inputs;
    for k := 0 to |inputs|
      invariant converted == (if k < goal then k else goal)
      invariant |out| == |inputs|
      invariant forall j :: 0 <= j < |inputs| ==>
                  out[j] == (if j < converted then ConvertedLeading(inputs, a, b)[j] else inputs[j])
    {
      if converted >= goal {
        break;
      }
      var lt := if converted == 0 then a else b;
      out := out[k := WithLifetime(inputs[k], lt)];
      converted := converted + 1;
    }
    assert forall j :: 0 <= j < |inputs| ==> out[j] == ConvertedLeading(inputs, a, b)[j];
  }

  const OUTLIVE_A := "outlive_a"
  const OUTLIVE_B := "outlive_b"
  const OUTLIVE_NEW := "outlive_new"

  // ---------------------------------------------------------------------
  // One signature

  /** What `add_outlive_constraint` may do to a signature, by the number
      of lifetime parameters it has:
      two or more: `'b: 'a` for two distinct ones, arguments untouched;
      one: a fresh lifetime outliving it is appended, and the first
      by-value argument borrows for it;
      none: `'outlive_a` and `'outlive_b: 'outlive_a` are inserted in
      front, and the first two arguments borrow for them. */
  ghost predicate OutliveAdded(sig: Signature, sig': Signature) {
    var ps := sig.generics.params;
    var names := LifetimeNames(ps);
    && sig'.name == sig.name && sig'.output == sig.output && sig'.generics.preds == sig.generics.preds
    && if |names| >= 2 then
         sig'.inputs == sig.inputs &&
         exists i, j :: 0 <= i < |names| && 0 <= j < |names| && i != j &&
                        sig'.generics.params == AddOutlive(ps, names[j], names[i])
       else if |names| == 1 then
         exists n :: n !in names &&
                     sig'.generics.params == ps + [LifetimeParam(n, [names[0]])] &&
                     sig'.inputs == WrapFirstValue(sig.inputs, n)
       else
         sig'.generics.params == [LifetimeParam(OUTLIVE_A, []), LifetimeParam(OUTLIVE_B, [OUTLIVE_A])] + ps &&
         sig'.inputs == ConvertedLeading(sig.inputs, OUTLIVE_A, OUTLIVE_B)
  }

  /** `add_outlive_constraint`. */
  method AddOutliveConstraint(sig: Signature) returns (sig': Signature)
    ensures OutliveAdded(sig, sig')
  {
    var ps := sig.generics.params;
    var names := LifetimeNames(ps);
    if |names| >= 2 {
      var i :| 0 <= i < |names|;
      var j :| 0 <= j < |names| && j != i;
      var ps' := PushOutlive(ps, names[j], names[i]);
      sig' := sig.(generics := sig.generics.(params := ps'));
    } else if |names| == 1 {
      var n := UniqueLifetimeName(names, OUTLIVE_NEW);
      var inputs := WrapFirstValueArg(sig.inputs, n);
      sig' := sig.(generics := sig.generics.(params := ps + [LifetimeParam(n, [names[0]])]), inputs := inputs);
    } else {
      var a := UniqueLifetimeName(names, OUTLIVE_A);
      var b := UniqueLifetimeName(names, OUTLIVE_B);
      var inputs := ConvertLeading(sig.inputs, a, b);
      sig' := sig.(generics := sig.generics.(params := [LifetimeParam(a, []), LifetimeParam(b, [a])] + ps), inputs := inputs);
    }
  }

  /** Every case leaves the signature with an outlives relation whose
      bound is a lifetime the signature declares. */
  lemma OutliveDeclared(sig: Signature, sig': Signature)
    requires OutliveAdded(sig, sig')
    ensures var ps' := sig'.generics.params;
            exists k, m :: 0 <= k < |ps'| && ps'[k].LifetimeParam? && 0 <= m < |ps'[k].outlives| &&
                           ps'[k].outlives[m] in LifetimeNames(ps')
  {
    var ps := sig.generics.params;
    var ps' := sig'.generics.params;
    var names := LifetimeNames(ps);
    if |names| >= 2 {
      var i, j :| 0 <= i < |names| && 0 <= j < |names| && i != j && ps' == AddOutlive(ps, names[j], names[i]);
      AddOutliveKeepsNames(ps, names[j], names[i]);
      AddOutliveRecords(ps, names[j], names[i]);
      var k :| 0 <= k < |ps| && IsLifetimeNamed(ps'[k], names[j]) && names[i] in ps'[k].outlives;
      var m :| 0 <= m < |ps'[k].outlives| && ps'[k].outlives[m] == names[i];
    } else if |names| == 1 {
      var n :| n !in names && ps' == ps + [LifetimeParam(n, [names[0]])] && sig'.inputs == WrapFirstValue(sig.inputs, n);
      LifetimeNamesAppend(ps, LifetimeParam(n, [names[0]]));
      assert ps'[|ps|].outlives[0] == names[0];
    } else {
      assert ps'[1].outlives[0] == OUTLIVE_A;
      assert ps' == [LifetimeParam(OUTLIVE_A, [])] + ps'[1..];
      assert OUTLIVE_A in LifetimeNames(ps');
    }
  }

  lemma {:induction false} LifetimeNamesAppend(ps: seq<GenericParam>, p: GenericParam)
    ensures LifetimeNames(ps + [p]) == LifetimeNames(ps) + LifetimeNames([p])
  {
    if ps != [] {
      LifetimeNamesAppend(ps[1..], p);
      assert (ps + [p])[1..] == ps[1..] + [p];
    }
  }

  /** A reached site counts as mutated even when nothing changes: with
      `'a: 'b` and `'b: 'a` already declared, every draw leaves the
      signature as it was. */
  lemma ReachedWithoutChange()
    ensures var sig := Signature("f", Generics([LifetimeParam("a", ["b"]), LifetimeParam("b", ["a"])], []), [], None);
            OutliveAdded(sig, sig)
  {
    var ps := [LifetimeParam("a", ["b"]), LifetimeParam("b", ["a"])];
    assert LifetimeNames(ps) == ["a", "b"] by {
      assert ps[1..] == [LifetimeParam("b", ["a"])];
      assert ps[1..][1..] == [];
    }
    var f := (p: GenericParam) => IsLifetimeNamed(p, "b");
    assert FirstWhere(ps, f) == Some(1);
    assert AddOutlive(ps, "b", "a") == ps;
    var names := LifetimeNames(ps);
    assert ps == AddOutlive(ps, names[1], names[0]);
  }

  // ---------------------------------------------------------------------
  // Collector and applier

  /** `OutliveCollector`: one site per free function and per method
      outside a trait impl. */
  method Collect(file: File) returns (count: nat)
    ensures count == SiteCount(file)
  {
    count := 0;
    for k := 0 to |file|
      invariant count == |FnSitesUpTo(file, k)|
    {
      match file[k] {
        case FnDef(_, _) =>
          count := count + 1;
        case ImplDef(_, tr, _, ms) =>
          if tr.None? {
            var n := CountMethods(ms, k);
            count := count + n;
          }
        case _ =>
      }
    }
  }

  method CountMethods(ms: seq<ImplMember>, k: nat) returns (n: nat)
    ensures n == |MethodSites(ms, k, |ms|)|
  {
    n := 0;
    for j := 0 to |ms|
      invariant n == |MethodSites(ms, k, j)|
    {
      if ms[j].MethodDef? {
        n := n + 1;
      }
    }
  }

  lemma {:induction false} MethodSitesPrefix(ms: seq<ImplMember>, k: nat, n: nat)
    requires n <= |ms|
    ensures MethodSites(ms, k, n) <= MethodSites(ms, k, |ms|)
    decreases |ms| - n
  {
    if n < |ms| {
      MethodSitesPrefix(ms, k, n + 1);
      var tail := if ms[n].MethodDef? then [InherentMethod(k, n)] else [];
      assert MethodSites(ms, k, n + 1) == MethodSites(ms, k, n) + tail;
    }
  }

  /** The applier's visit of item `k`: the function whose counter value
      equals `target` is hit; otherwise `current` moves past the item's
      functions. */
  method VisitItem(file: File, k: nat, target: nat, current: nat) returns (hit: Option<FnSite>, current': nat)
    requires k < |file| && current <= target
    ensures hit.None? ==> current' == current + |ItemFnSites(file[k], k)| && current' <= target
    ensures hit.Some? ==> target - current < |ItemFnSites(file[k], k)| &&
                          ItemFnSites(file[k], k)[target - current] == hit.value
  {
    hit, current' := None, current;
    match file[k] {
      case FnDef(_, _) =>
        if current == target {
          return Some(FreeFn(k)), current;
        }
        current' := current + 1;
      case ImplDef(_, tr, _, ms) =>
        if tr.None? {
          for j := 0 to |ms|
            invariant current' == current + |MethodSites(ms, k, j)| && current' <= target
          {
            if ms[j].MethodDef? {
              if current' == target {
                assert MethodSites(ms, k, j + 1) == MethodSites(ms, k, j) + [InherentMethod(k, j)];
                MethodSitesPrefix(ms, k, j + 1);
                return Some(InherentMethod(k, j)), current';
              }
              current' := current' + 1;
            }
          }
        }
      case _ =>
    }
  }

  /** A hit inside item `k` is the collector's site at position `target`. */
  lemma HitIsListed(file: File, k: nat, target: nat, s: FnSite)
    requires k < |file| && |FnSitesUpTo(file, k)| <= target
    requires target - |FnSitesUpTo(file, k)| < |ItemFnSites(file[k], k)|
    requires ItemFnSites(file[k], k)[target - |FnSitesUpTo(file, k)|] == s
    ensures target < SiteCount(file) && FnSitesOf(file)[target] == s && ValidSite(file, s)
  {
    FnSitesPrefix(file, k + 1);
    assert FnSitesUpTo(file, k + 1) == FnSitesUpTo(file, k) + ItemFnSites(file[k], k);
    FnSitesExactly(file, s);
  }

  /** `OutliveApplier`: counts eligible functions in the collector's order
      and adds an outlives relation to the one numbered `target`. It
      mutates exactly when `target` is below the collector's count, and
      then changes only the signature the collector listed at `target`. */
  method Apply(file: File, target: nat) returns (out: File, mutated: bool)
    ensures mutated <==> target < SiteCount(file)
    ensures !mutated ==> out == file
    ensures mutated ==> ValidSite(file, FnSitesOf(file)[target]) &&
                        var s := FnSitesOf(file)[target];
                        ValidSite(out, s) && OutliveAdded(SigAt(file, s), SigAt(out, s)) &&
                        WithSig(out, s, SigAt(file, s)) == file
  {
    var current := 0;
    for k := 0 to |file|
      invariant current == |FnSitesUpTo(file, k)| && current <= target
    {
      var hit;
      hit, current := VisitItem(file, k, target, current);
      if hit.Some? {
        var s := hit.value;
        HitIsListed(file, k, target, s);
        var sig' := AddOutliveConstraint(SigAt(file, s));
        out := WithSig(file, s, sig');
        WithSigRestores(file, s, sig');
        return out, true;
      }
    }
    return file, false;
  }

  /** The framework's `run` for this mutator: a file with an eligible
      function always comes back mutated in exactly one signature. */
  method Run(file: File) returns (r: Outcome)
    ensures SiteCount(file) == 0 ==> r == Outcome(file, false)
    ensures SiteCount(file) > 0 ==>
              r.mutated &&
              exists s :: ValidSite(file, s) && ValidSite(r.file, s) &&
                          OutliveAdded(SigAt(file, s), SigAt(r.file, s)) &&
                          WithSig(r.file, s, SigAt(file, s)) == file
  {
    var count := Collect(file);
    if count == 0 {
      return Outcome(file, false);
    }
    var index :| 0 <= index < count;
    var out, mutated := Apply(file, index);
    r := Outcome(out, mutated);
  }
}
