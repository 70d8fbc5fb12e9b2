/** The functions the two lifetime mutators may edit: free functions and
    the methods of inherent impls (`impl T { … }`), in visit order. The
    methods of trait impls are skipped so that the impl keeps matching its
    trait's signatures. */
module FnSites {
  import opened Wrappers
  import opened Syntax

  /** A free function (the item's index), or a method (the impl's index
      and the member's index within it). */
  datatype FnSite = FreeFn(item: nat) | InherentMethod(item: nat, member: nat)

  /** Whether `s` names item `it` when it is a free function, or one of its
      methods when it is an inherent impl. */
  predicate ValidIn(it: Item, s: FnSite) {
    match s
    case FreeFn(_) => it.FnDef?
    case InherentMethod(_, j) =>
      it.ImplDef? && it.traitRef.None? && j < |it.implMembers| && it.implMembers[j].MethodDef?
  }

  /** Whether `s` names a free function or a method of an inherent impl of
      `file`. */
  predicate ValidSite(file: File, s: FnSite) {
    s.item < |file| && ValidIn(file[s.item], s)
  }

  /** The methods among the first `n` members of the impl at item `i`. */
  function MethodSites(ms: seq<ImplMember>, i: nat, n: nat): seq<FnSite>
    requires n <= |ms|
  {
    if n == 0 then []
    else MethodSites(ms, i, n - 1) + (if ms[n - 1].MethodDef? then [InherentMethod(i, n - 1)] else [])
  }

  /** The eligible functions of item `it`, which sits at index `i`. */
  function ItemFnSites(it: Item, i: nat): seq<FnSite> {
    match it
    case FnDef(_, _) => [FreeFn(i)]
    case ImplDef(_, tr, _, ms) => if tr.None? then MethodSites(ms, i, |ms|) else []
    case _ => []
  }

  /** The eligible functions of the first `k` items, in visit order. */
  function FnSitesUpTo(file: File, k: nat): seq<FnSite>
    requires k <= |file|
  {
    if k == 0 then [] else FnSitesUpTo(file, k - 1) + ItemFnSites(file[k - 1], k - 1)
  }

  /** The eligible functions of the file, in visit order (what the
      outlive collector counts). */
  function FnSitesOf(file: File): seq<FnSite> {
    FnSitesUpTo(file, |file|)
  }

  lemma {:induction false} MethodSitesMember(ms: seq<ImplMember>, i: nat, n: nat, s: FnSite)
    requires n <= |ms|
    ensures s in MethodSites(ms, i, n) <==>
              s.InherentMethod? && s.item == i && s.member < n && ms[s.member].MethodDef?
  {
    if n > 0 {
      MethodSitesMember(ms, i, n - 1, s);
    }
  }

  lemma ItemFnSitesMember(it: Item, i: nat, s: FnSite)
    ensures s in ItemFnSites(it, i) <==> s.item == i && ValidIn(it, s)
  {
    if it.ImplDef? {
      MethodSitesMember(it.implMembers, i, |it.implMembers|, s);
    }
  }

  lemma {:induction false} FnSitesUpToMember(file: File, k: nat, s: FnSite)
    requires k <= |file|
    ensures s in FnSitesUpTo(file, k) <==> ValidSite(file, s) && s.item < k
  {
    if k > 0 {
      FnSitesUpToMember(file, k - 1, s);
      ItemFnSitesMember(file[k - 1], k - 1, s);
      assert FnSitesUpTo(file, k) == FnSitesUpTo(file, k - 1) + ItemFnSites(file[k - 1], k - 1);
      if s.item == k - 1 {
        assert ValidSite(file, s) <==> ValidIn(file[k - 1], s);
      }
    }
  }

  /** The collector counts exactly the free functions and the methods of
      inherent impls: never a method of a trait impl. */
  lemma FnSitesExactly(file: File, s: FnSite)
    ensures s in FnSitesOf(file) <==> ValidSite(file, s)
  {
    FnSitesUpToMember(file, |file|, s);
  }

  /** The sites of the first `k` items come first. */
  lemma {:induction false} FnSitesPrefix(file: File, k: nat)
    requires k <= |file|
    ensures FnSitesUpTo(file, k) <= FnSitesOf(file)
    decreases |file| - k
  {
    if k < |file| {
      FnSitesPrefix(file, k + 1);
      assert FnSitesUpTo(file, k + 1) == FnSitesUpTo(file, k) + ItemFnSites(file[k], k);
    }
  }

  /** The signature of the function `s` names in item `it`. */
  function SigIn(it: Item, s: FnSite): Signature
    requires ValidIn(it, s)
  {
    match s
    case FreeFn(_) => it.sig
    case InherentMethod(_, j) => it.implMembers[j].sig
  }

  /** The signature of the function at `s`. */
  function SigAt(file: File, s: FnSite): Signature
    requires ValidSite(file, s)
  {
    SigIn(file[s.item], s)
  }

  /** `file` with the signature at `s` replaced by `sig`. */
  function WithSig(file: File, s: FnSite, sig: Signature): (r: File)
    requires ValidSite(file, s)
    ensures |r| == |file| && ValidSite(r, s) && SigAt(r, s) == sig
    ensures forall i :: 0 <= i < |file| && i != s.item ==> r[i] == file[i]
  {
    match s
    case FreeFn(i) => file[i := FnDef(sig, file[i].body)]
    case InherentMethod(i, j) =>
      var ms := file[i].implMembers;
      file[i := file[i].(implMembers := ms[j := MethodDef(sig, ms[j].body)])]
  }

  /** Nothing but the signature changes: putting the old signature back
      gives the file again. */
  lemma WithSigRestores(file: File, s: FnSite, sig: Signature)
    requires ValidSite(file, s)
    ensures WithSig(WithSig(file, s, sig), s, SigAt(file, s)) == file
  {
    match s
    case FreeFn(i) =>
      var r := file[i := FnDef(sig, file[i].body)];
      assert WithSig(file, s, sig) == r;
      assert WithSig(r, s, file[i].sig) == r[i := FnDef(file[i].sig, file[i].body)];
      assert FnDef(file[i].sig, file[i].body) == file[i];
    case InherentMethod(i, j) =>
      var ms := file[i].implMembers;
      var ms' := ms[j := MethodDef(sig, ms[j].body)];
      var r := file[i := file[i].(implMembers := ms')];
      assert WithSig(file, s, sig) == r;
      assert WithSig(r, s, ms[j].sig) == r[i := r[i].(implMembers := ms'[j := MethodDef(ms[j].sig, ms[j].body)])];
      assert ms'[j := MethodDef(ms[j].sig, ms[j].body)] == ms;
      assert r[i].(implMembers := ms) == file[i];
  }

  /** The lifetime an argument is borrowed for, if it is a reference. */
  function ArgLifetime(a: FnArg): Option<string> {
    match a
    case Receiver(reference, lt, _) => if reference then lt else None
    case Typed(t) => if t.RefTy? then t.lifetime else None
  }

  /** The type a typed argument holds or borrows. */
  function Referent(a: FnArg): Option<Ty> {
    match a
    case Receiver(_, _, _) => None
    case Typed(t) => if t.RefTy? then Some(t.elem) else Some(t)
  }

  /** A typed argument passed by value. */
  predicate IsValueArg(a: FnArg) {
    a.Typed? && !a.ty.RefTy?
  }

  /** The argument borrowed for `lt`: `self` becomes `&'lt self`, a
      reference gets lifetime `'lt`, and a value `T` becomes `&'lt T`. The
      borrowed type is kept, and the result is a mutable reference only
      when the argument already was one. */
  function WithLifetime(a: FnArg, lt: string): (r: FnArg)
    ensures ArgLifetime(r) == Some(lt)
    ensures Referent(r) == Referent(a)
    ensures r.Receiver? <==> a.Receiver?
    ensures r.Receiver? ==> r.reference && r.mutable == a.mutable
    ensures r.Typed? ==> r.ty.RefTy? && r.ty.mutable == (a.ty.RefTy? && a.ty.mutable)
  {
    match a
    case Receiver(_, _, m) => Receiver(true, Some(lt), m)
    case Typed(t) =>
      if t.RefTy? then Typed(RefTy(Some(lt), t.mutable, t.elem))
      else Typed(RefTy(Some(lt), false, t))
  }
}
