/** The lifetime mutator: one mutation site per argument (including
    `self`) of every free function and inherent-impl method; the chosen
    argument is made to borrow for a lifetime of its signature. */
module LifetimeObfuscation {
  import opened Wrappers
  import opened Syntax
  import opened Framework
  import opened FnSites

  /** The `arg`-th argument of the function at `fn`. */
  datatype ArgSite = ArgSite(fn: FnSite, arg: nat)

  /** The sites of the `n` arguments of the function at `f`. */
  function ArgRange(f: FnSite, n: nat): (r: seq<ArgSite>)
    ensures |r| == n
  {
    if n == 0 then [] else ArgRange(f, n - 1) + [ArgSite(f, n - 1)]
  }

  lemma {:induction false} ArgRangeAt(f: FnSite, n: nat, a: nat)
    requires a < n
    ensures ArgRange(f, n)[a] == ArgSite(f, a)
  {
    if a < n - 1 {
      ArgRangeAt(f, n - 1, a);
    }
  }

  lemma {:induction false} ArgRangeMember(f: FnSite, n: nat, a: ArgSite)
    ensures a in ArgRange(f, n) <==> a.fn == f && a.arg < n
  {
    if n > 0 {
      ArgRangeMember(f, n - 1, a);
    }
  }

  /** The argument sites of the methods among the first `n` members of
      the inherent impl at item `i`. */
  function MethodArgSites(ms: seq<ImplMember>, i: nat, n: nat): seq<ArgSite>
    requires n <= |ms|
  {
    if n == 0 then []
    else
      MethodArgSites(ms, i, n - 1) +
      (if ms[n - 1].MethodDef? then ArgRange(InherentMethod(i, n - 1), |ms[n - 1].sig.inputs|) else [])
  }

  function ItemArgSites(it: Item, i: nat): seq<ArgSite> {
    match it
    case FnDef(sig, _) => ArgRange(FreeFn(i), |sig.inputs|)
    case ImplDef(_, tr, _, ms) => if tr.None? then MethodArgSites(ms, i, |ms|) else []
    case _ => []
  }

  function ArgSitesUpTo(file: File, k: nat): seq<ArgSite>
    requires k <= |file|
  {
    if k == 0 then [] else ArgSitesUpTo(file, k - 1) + ItemArgSites(file[k - 1], k - 1)
  }

  /** The argument sites of the file, in visit order. */
  function ArgSitesOf(file: File): seq<ArgSite> {
    ArgSitesUpTo(file, |file|)
  }

  /** What `collect` returns. */
  function SiteCount(file: File): nat {
    |ArgSitesOf(file)|
  }

  /** Whether `a` is an argument of an eligible function of item `it`. */
  predicate ArgValidIn(it: Item, a: ArgSite) {
    ValidIn(it, a.fn) && a.arg < |SigIn(it, a.fn).inputs|
  }

  /** Whether `a` is an argument of an eligible function of `file`. */
  predicate ValidArg(file: File, a: ArgSite) {
    a.fn.item < |file| && ArgValidIn(file[a.fn.item], a)
  }

  lemma {:induction false} MethodArgSitesMember(ms: seq<ImplMember>, i: nat, n: nat, a: ArgSite)
    requires n <= |ms|
    ensures a in MethodArgSites(ms, i, n) <==>
              a.fn.InherentMethod? && a.fn.item == i && a.fn.member < n &&
              ms[a.fn.member].MethodDef? && a.arg < |ms[a.fn.member].sig.inputs|
  {
    if n > 0 {
      MethodArgSitesMember(ms, i, n - 1, a);
      if ms[n - 1].MethodDef? {
        var tail := ArgRange(InherentMethod(i, n - 1), |ms[n - 1].sig.inputs|);
        ArgRangeMember(InherentMethod(i, n - 1), |ms[n - 1].sig.inputs|, a);
        assert MethodArgSites(ms, i, n) == MethodArgSites(ms, i, n - 1) + tail;
      } else {
        assert MethodArgSites(ms, i, n) == MethodArgSites(ms, i, n - 1);
      }
    }
  }

  lemma ItemArgSitesMember(it: Item, k: nat, a: ArgSite)
    ensures a in ItemArgSites(it, k) <==> a.fn.item == k && ArgValidIn(it, a)
  {
    if it.FnDef? {
      ArgRangeMember(FreeFn(k), |it.sig.inputs|, a);
    }
    if it.ImplDef? {
      MethodArgSitesMember(it.implMembers, k, |it.implMembers|, a);
    }
  }

  lemma {:induction false} ArgSitesUpToMember(file: File, k: nat, a: ArgSite)
    requires k <= |file|
    ensures a in ArgSitesUpTo(file, k) <==> ValidArg(file, a) && a.fn.item < k
  {
    if k > 0 {
      ArgSitesUpToMember(file, k - 1, a);
      ItemArgSitesMember(file[k - 1], k - 1, a);
      var before, here := ArgSitesUpTo(file, k - 1), ItemArgSites(file[k - 1], k - 1);
      assert ArgSitesUpTo(file, k) == before + here;
      assert a in before + here <==> a in before || a in here;
    }
  }

  /** The collector counts exactly the arguments of free functions and of
      inherent-impl methods; methods of trait impls add nothing. */
  lemma ArgSitesExactly(file: File, a: ArgSite)
    ensures a in ArgSitesOf(file) <==> ValidArg(file, a)
  {
    ArgSitesUpToMember(file, |file|, a);
  }

  lemma {:induction false} ArgSitesPrefix(file: File, k: nat)
    requires k <= |file|
    ensures ArgSitesUpTo(file, k) <= ArgSitesOf(file)
    decreases |file| - k
  {
    if k < |file| {
      ArgSitesPrefix(file, k + 1);
      assert ArgSitesUpTo(file, k + 1) == ArgSitesUpTo(file, k) + ItemArgSites(file[k], k);
    }
  }

  /** The lifetime inserted when the signature has none. */
  const MUT_LT := "mut_lt"

  /** `try_mutate_arg`: the signature's first lifetime parameter, or a new
      `'mut_lt` inserted at position 0 when there is none, is attached to
      argument `arg`; the other arguments and the rest of the signature
      are kept. Afterwards the argument borrows for a lifetime the
      signature declares. */
  function MutateArg(sig: Signature, arg: nat): (r: Signature)
    requires arg < |sig.inputs|
    ensures r.name == sig.name && r.output == sig.output && r.generics.preds == sig.generics.preds
    ensures |r.inputs| == |sig.inputs|
    ensures forall j :: 0 <= j < |sig.inputs| && j != arg ==> r.inputs[j] == sig.inputs[j]
    ensures ArgLifetime(r.inputs[arg]).Some? && ArgLifetime(r.inputs[arg]).value in LifetimeNames(r.generics.params)
    ensures Referent(r.inputs[arg]) == Referent(sig.inputs[arg])
    ensures FirstLifetime(sig.generics.params).Some? ==>
              r.generics == sig.generics && ArgLifetime(r.inputs[arg]) == FirstLifetime(sig.generics.params)
    ensures FirstLifetime(sig.generics.params).None? ==>
              r.generics.params == [LifetimeParam(MUT_LT, [])] + sig.generics.params &&
              ArgLifetime(r.inputs[arg]) == Some(MUT_LT)
  {
    var ps := sig.generics.params;
    var lt := if FirstLifetime(ps).Some? then FirstLifetime(ps).value else MUT_LT;
    var ps' := if FirstLifetime(ps).Some? then ps else [LifetimeParam(MUT_LT, [])] + ps;
    assert LifetimeParam(MUT_LT, []) in ps' ==> MUT_LT in LifetimeNames(ps');
    sig.(generics := sig.generics.(params := ps'), inputs := sig.inputs[arg := WithLifetime(sig.inputs[arg], lt)])
  }

  /** The file after mutating site `index`: the argument at that site is
      rewritten by `MutateArg`; an index past the last site changes
      nothing. */
  function Applied(file: File, index: nat): File {
    if index < SiteCount(file) then
      var a := ArgSitesOf(file)[index];
      ArgSitesExactly(file, a);
      WithSig(file, a.fn, MutateArg(SigAt(file, a.fn), a.arg))
    else file
  }

  /** `mutate`'s result on `index`: the new file, and whether a site was
      reached. */
  function Mutation(file: File, index: nat): Outcome {
    Outcome(Applied(file, index), index < SiteCount(file))
  }

  /** A mutation changes one signature of an eligible function and nothing
      else, and the argument it changes then borrows for a lifetime the
      signature declares. */
  lemma AppliedChangesOneArgument(file: File, index: nat)
    requires index < SiteCount(file)
    ensures exists a :: ValidArg(file, a) && ValidSite(Applied(file, index), a.fn) &&
                        WithSig(Applied(file, index), a.fn, SigAt(file, a.fn)) == file &&
                        var sig := SigAt(Applied(file, index), a.fn);
                        a.arg < |sig.inputs| && ArgLifetime(sig.inputs[a.arg]).Some? &&
                        ArgLifetime(sig.inputs[a.arg]).value in LifetimeNames(sig.generics.params)
  {
    var a := ArgSitesOf(file)[index];
    ArgSitesExactly(file, a);
    WithSigRestores(file, a.fn, MutateArg(SigAt(file, a.fn), a.arg));
  }

  /** `LifetimeCollector`: adds the argument count of every free function,
      and of every method outside a trait impl. */
  method Collect(file: File) returns (count: nat)
    ensures count == SiteCount(file)
  {
    count := 0;
    for k := 0 to |file|
      invariant count == |ArgSitesUpTo(file, k)|
    {
      match file[k] {
        case FnDef(sig, _) =>
          count := count + |sig.inputs|;
        case ImplDef(_, tr, _, ms) =>
          if tr.None? {
            var n := CountMethodArgs(ms, k);
            count := count + n;
          }
        case _ =>
      }
    }
  }

  method CountMethodArgs(ms: seq<ImplMember>, k: nat) returns (n: nat)
    ensures n == |MethodArgSites(ms, k, |ms|)|
  {
    n := 0;
    for j := 0 to |ms|
      invariant n == |MethodArgSites(ms, k, j)|
    {
      if ms[j].MethodDef? {
        n := n + |ms[j].sig.inputs|;
      }
    }
  }

  /** The applier's walk over the methods of one inherent impl: `current`
      counts the arguments passed so far; the method whose argument range
      holds `target` is the one hit, at argument `target - current`. */
  method FindInMethods(ms: seq<ImplMember>, k: nat, target: nat, current: nat)
    returns (hit: Option<ArgSite>, current': nat)
    requires current <= target
    ensures hit.None? ==> current' == current + |MethodArgSites(ms, k, |ms|)| && current' <= target
    ensures hit.Some? ==> target - current < |MethodArgSites(ms, k, |ms|)| &&
                          MethodArgSites(ms, k, |ms|)[target - current] == hit.value
  {
    hit, current' := None, current;
    for j := 0 to |ms|
      invariant current' == current + |MethodArgSites(ms, k, j)| && current' <= target
    {
      if ms[j].MethodDef? {
        var n := |ms[j].sig.inputs|;
        if current' + n > target {
          var range := ArgRange(InherentMethod(k, j), n);
          ArgRangeAt(InherentMethod(k, j), n, target - current');
          assert MethodArgSites(ms, k, j + 1) == MethodArgSites(ms, k, j) + range;
          MethodArgSitesPrefix(ms, k, j + 1);
          return Some(ArgSite(InherentMethod(k, j), target - current')), current';
        }
        current' := current' + n;
      }
    }
  }

  lemma {:induction false} MethodArgSitesPrefix(ms: seq<ImplMember>, k: nat, n: nat)
    requires n <= |ms|
    ensures MethodArgSites(ms, k, n) <= MethodArgSites(ms, k, |ms|)
    decreases |ms| - n
  {
    if n < |ms| {
      MethodArgSitesPrefix(ms, k, n + 1);
      var tail := if ms[n].MethodDef? then ArgRange(InherentMethod(k, n), |ms[n].sig.inputs|) else [];
      assert MethodArgSites(ms, k, n + 1) == MethodArgSites(ms, k, n) + tail;
    }
  }

  /** The applier's visit of item `k`: the free function or inherent-impl
      method whose argument range holds `target` is hit, at argument
      `target - current`; otherwise `current` moves past the item's
      arguments. */
  method VisitItem(file: File, k: nat, target: nat, current: nat) returns (hit: Option<ArgSite>, current': nat)
    requires k < |file| && current <= target
    ensures hit.None? ==> current' == current + |ItemArgSites(file[k], k)| && current' <= target
    ensures hit.Some? ==> target - current < |ItemArgSites(file[k], k)| &&
                          ItemArgSites(file[k], k)[target - current] == hit.value
  {
    hit, current' := None, current;
    match file[k] {
      case FnDef(sig, _) =>
        var n := |sig.inputs|;
        if current + n > target {
          ArgRangeAt(FreeFn(k), n, target - current);
          return Some(ArgSite(FreeFn(k), target - current)), current;
        }
        current' := current + n;
      case ImplDef(_, tr, _, ms) =>
        if tr.None? {
          hit, current' := FindInMethods(ms, k, target, current);
        }
      case _ =>
    }
  }

  /** A hit inside item `k` is the collector's site at position `target`. */
  lemma HitIsListed(file: File, k: nat, target: nat, a: ArgSite)
    requires k < |file| && |ArgSitesUpTo(file, k)| <= target
    requires target - |ArgSitesUpTo(file, k)| < |ItemArgSites(file[k], k)|
    requires ItemArgSites(file[k], k)[target - |ArgSitesUpTo(file, k)|] == a
    ensures target < SiteCount(file) && ArgSitesOf(file)[target] == a && ValidArg(file, a)
  {
    ArgSitesPrefix(file, k + 1);
    assert ArgSitesUpTo(file, k + 1) == ArgSitesUpTo(file, k) + ItemArgSites(file[k], k);
    ArgSitesExactly(file, a);
  }

  /** `LifetimeApplier`: walks the functions in the collector's order,
      advancing `current` by each eligible function's argument count, and
      rewrites the argument `target` falls on. It mutates exactly when
      `target` is below the collector's count, and then edits the site the
      collector listed at position `target`. */
  method Apply(file: File, target: nat) returns (out: File, mutated: bool)
    ensures mutated <==> target < SiteCount(file)
    ensures out == Applied(file, target)
  {
    var current := 0;
    for k := 0 to |file|
      invariant current == |ArgSitesUpTo(file, k)| && current <= target
    {
      var hit;
      hit, current := VisitItem(file, k, target, current);
      if hit.Some? {
        var a := hit.value;
        HitIsListed(file, k, target, a);
        return WithSig(file, a.fn, MutateArg(SigAt(file, a.fn), a.arg)), true;
      }
    }
    return file, false;
  }

  /** The mutator driven by the framework's `run`: a file with an argument
      to rewrite always comes back mutated in one signature; a file without
      one comes back unchanged. */
  method Run(file: File) returns (r: Outcome)
    ensures SiteCount(file) == 0 ==> r == Outcome(file, false)
    ensures SiteCount(file) > 0 ==> r.mutated && exists index :: 0 <= index < SiteCount(file) && r.file == Applied(file, index)
  {
    r := Framework.Run(file, SiteCount, Mutation);
  }
}
