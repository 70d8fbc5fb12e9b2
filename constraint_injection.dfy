/** TTDN-guided constraint injection (the `constraint_injection` mode): a
    site is a trait (a new supertrait), an impl (a new where-predicate), a
    type parameter (a new bound) or a trait's associated type (a new
    bound); each site offers a list of candidate constraints drawn from the
    file's trait/type summary, and one candidate is pushed at one site. */
module ConstraintInjection {
  import opened Wrappers
  import opened Syntax
  import opened Flatten
  import opened Ttdn

  // ---------------------------------------------------------------------
  // Deduplication

  predicate Distinct<T(==)>(xs: seq<T>) {
    forall i, j :: 0 <= i < j < |xs| ==> xs[i] != xs[j]
  }

  /** The first occurrence of each element, in order. Two bounds or
      predicates with the same normalised token text are the same value
      here. */
  function Deduped<T(==)>(xs: seq<T>): seq<T> {
    if xs == [] then []
    else
      var n := |xs| - 1;
      Deduped(xs[..n]) + (if xs[n] in xs[..n] then [] else [xs[n]])
  }

  /** Index of the first occurrence of `x` in `xs`. */
  function FirstAt<T(==)>(xs: seq<T>, x: T): (i: nat)
    requires x in xs
    ensures i < |xs| && xs[i] == x && x !in xs[..i]
  {
    if xs[0] == x then 0
    else
      var k := FirstAt(xs[1..], x);
      assert xs[..k + 1] == [xs[0]] + xs[1..][..k];
      k + 1
  }

  /** Nothing is lost and nothing is invented. */
  lemma {:induction false} DedupedMembers<T>(xs: seq<T>)
    ensures forall y :: y in Deduped(xs) <==> y in xs
  {
    if xs != [] {
      var n := |xs| - 1;
      DedupedMembers(xs[..n]);
      assert xs == xs[..n] + [xs[n]];
    }
  }

  /** No element is kept twice. */
  lemma {:induction false} DedupedDistinct<T>(xs: seq<T>)
    ensures Distinct(Deduped(xs))
  {
    if xs != [] {
      var n := |xs| - 1;
      DedupedDistinct(xs[..n]);
      DedupedMembers(xs[..n]);
    }
  }

  /** A first occurrence in a prefix is a first occurrence in the whole. */
  lemma FirstAtPrefix<T>(xs: seq<T>, n: nat, y: T)
    requires n <= |xs| && y in xs[..n]
    ensures FirstAt(xs, y) == FirstAt(xs[..n], y)
  {
    var i := FirstAt(xs[..n], y);
    var k := FirstAt(xs, y);
    assert xs[..n][..i] == xs[..i];
    forall m | 0 <= m < i
      ensures xs[m] != y
    {
      assert xs[..i][m] == xs[m];
    }
    forall m | 0 <= m < k
      ensures xs[m] != y
    {
      assert xs[..k][m] == xs[m];
    }
  }

  /** The kept elements come in the order of their first occurrences. */
  lemma {:induction false} DedupedFirstOrder<T>(xs: seq<T>)
    ensures forall y :: y in Deduped(xs) ==> y in xs
    ensures forall i, j :: 0 <= i < j < |Deduped(xs)| ==>
              FirstAt(xs, Deduped(xs)[i]) < FirstAt(xs, Deduped(xs)[j])
  {
    DedupedMembers(xs);
    if xs != [] {
      var n := |xs| - 1;
      var p := Deduped(xs[..n]);
      var r := Deduped(xs);
      DedupedFirstOrder(xs[..n]);
      DedupedMembers(xs[..n]);
      forall i, j | 0 <= i < j < |r|
        ensures FirstAt(xs, r[i]) < FirstAt(xs, r[j])
      {
        assert r[i] == p[i] && p[i] in xs[..n];
        FirstAtPrefix(xs, n, r[i]);
        if j < |p| {
          assert r[j] == p[j] && p[j] in xs[..n];
          FirstAtPrefix(xs, n, r[j]);
        } else {
          assert r[j] == xs[n] && xs[n] !in xs[..n];
          assert FirstAt(xs, xs[n]) == n by {
            forall m | 0 <= m < n
              ensures xs[m] != xs[n]
            {
              assert xs[..n][m] == xs[m];
            }
          }
        }
      }
    }
  }

  /** An already duplicate-free list is kept as it is. */
  lemma {:induction false} DedupedOfDistinct<T>(xs: seq<T>)
    requires Distinct(xs)
    ensures Deduped(xs) == xs
  {
    if xs != [] {
      var n := |xs| - 1;
      DedupedOfDistinct(xs[..n]);
      assert xs[n] !in xs[..n];
      assert xs == xs[..n] + [xs[n]];
    }
  }

  /** `dedup_bounds` / `dedup_preds`: a `seen` set, and each element is
      pushed the first time it is met. */
  method Dedup<T(==)>(xs: seq<T>) returns (out: seq<T>)
    ensures out == Deduped(xs)
  {
    out := [];
    var seen: set<T> := {};
    for k := 0 to |xs|
      invariant out == Deduped(xs[..k])
      invariant forall y :: y in seen <==> y in xs[..k]
    {
      assert xs[..k + 1][..k] == xs[..k];
      assert xs[..k + 1] == xs[..k] + [xs[k]];
      if xs[k] !in seen {
        seen := seen + {xs[k]};
        out := out + [xs[k]];
      }
    }
    assert xs[..|xs|] == xs;
  }

  // ---------------------------------------------------------------------
  // Bound candidates

  /** The traits of `traits`, in order and as bounds, other than `own` and
      not already among `bounds`. */
  function Unbound(traits: seq<string>, bounds: seq<Bound>, own: Option<string>): (r: seq<Bound>)
    ensures forall b :: b in r <==>
              b.TraitBound? && b.name in traits && Some(b.name) != own && !HasBound(bounds, b.name)
  {
    if traits == [] then []
    else
      var n := |traits| - 1;
      var tr := traits[n];
      assert traits == traits[..n] + [tr];
      Unbound(traits[..n], bounds, own) + (if Some(tr) != own && !HasBound(bounds, tr) then [TraitBound(tr)] else [])
  }

  /** The candidate bounds of a site: for a trait's supertraits (`own` is
      the trait itself), a type parameter or an associated type. Every
      candidate is a trait of the file that is new at the site, and none
      comes twice. */
  function BoundCandidates(traits: seq<string>, bounds: seq<Bound>, own: Option<string>): (r: seq<Bound>)
    ensures forall b :: b in r <==>
              b.TraitBound? && b.name in traits && Some(b.name) != own && !HasBound(bounds, b.name)
    ensures Distinct(r)
  {
    var u := Unbound(traits, bounds, own);
    DedupedMembers(u);
    DedupedDistinct(u);
    Deduped(u)
  }

  /** `supertrait_candidates`, `generic_bound_candidates` and
      `assoc_bound_candidates`: each trait of the summary that passes the
      site's test is pushed, then the list is deduplicated. */
  method CandidateBounds(traits: seq<string>, bounds: seq<Bound>, own: Option<string>) returns (r: seq<Bound>)
    ensures r == BoundCandidates(traits, bounds, own)
  {
    var out: seq<Bound> := [];
    for k := 0 to |traits|
      invariant out == Unbound(traits[..k], bounds, own)
    {
      assert traits[..k + 1][..k] == traits[..k];
      var tr := traits[k];
      if Some(tr) != own && !HasBound(bounds, tr) {
        out := out + [TraitBound(tr)];
      }
    }
    assert traits[..|traits|] == traits;
    r := Dedup(out);
  }

  // ---------------------------------------------------------------------
  // Where-predicate candidates

  /** `Ty: Trait` for a single-identifier type and trait. */
  function EdgePred(ty: string, tr: string): WherePred {
    TypePred(IdentTy(ty), [TraitBound(tr)])
  }

  /** `<Ty as Trait>::Assoc: Bound`. */
  function ProjPred(ty: string, tr: string, assoc: string, bound: string): WherePred {
    TypePred(QSelfTy(IdentTy(ty), tr, assoc), [TraitBound(bound)])
  }

  /** A predicate of the shape `Ty: Trait`. */
  predicate IsEdgeShaped(p: WherePred) {
    p.TypePred? && TyIdent(p.bounded).Some? && |p.bounds| == 1 && p.bounds[0].TraitBound?
  }

  /** A predicate of the shape `<Ty as Trait>::Assoc: Bound`. */
  predicate IsProjShaped(p: WherePred) {
    p.TypePred? && p.bounded.QSelfTy? && TyIdent(p.bounded.qself).Some?
    && |p.bounds| == 1 && p.bounds[0].TraitBound?
  }

  lemma EdgeShapedIs(q: WherePred)
    requires IsEdgeShaped(q)
    ensures q == EdgePred(TyIdent(q.bounded).value, q.bounds[0].name)
  {
    assert q.bounds == [TraitBound(q.bounds[0].name)];
  }

  lemma ProjShapedIs(q: WherePred)
    requires IsProjShaped(q)
    ensures q == ProjPred(TyIdent(q.bounded.qself).value, q.bounded.tr, q.bounded.assoc, q.bounds[0].name)
  {
    assert q.bounds == [TraitBound(q.bounds[0].name)];
  }

  /** `Ty: Trait` for an impl edge `(Ty, Trait)`. */
  ghost predicate EdgeCandidate(p: WherePred, edges: seq<(string, string)>) {
    IsEdgeShaped(p) && (TyIdent(p.bounded).value, p.bounds[0].name) in edges
  }

  /** `<Ty as Trait>::Assoc: Bound` for an associated-type binding of an
      impl and a trait `Bound` of the file. */
  ghost predicate BindingCandidate(p: WherePred, info: TtdnInfo) {
    IsProjShaped(p) && p.bounds[0].name in info.traits
    && exists b :: b in info.bindings && ProjectsBinding(p, b)
  }

  predicate ProjectsBinding(p: WherePred, b: Binding)
    requires IsProjShaped(p)
  {
    TyIdent(p.bounded.qself).value == b.selfTy && p.bounded.tr == b.traitName && p.bounded.assoc == b.assoc
  }

  /** `<Ty as Trait>::Assoc: Bound` for an associated type `Assoc` declared
      by `Trait`, a type implementing `Trait` and a trait `Bound` of the
      file. */
  ghost predicate AssocCandidate(p: WherePred, info: TtdnInfo) {
    IsProjShaped(p) && p.bounds[0].name in info.traits
    && (p.bounded.tr, p.bounded.assoc) in info.traitAssocTypes
    && (TyIdent(p.bounded.qself).value, p.bounded.tr) in info.implEdges
  }

  /** The where-predicates an impl may receive: an impl-edge predicate or a
      projection predicate, not already in its where clause. */
  ghost predicate WhereCandidate(p: WherePred, g: Generics, info: TtdnInfo) {
    p !in g.preds && (EdgeCandidate(p, info.implEdges) || BindingCandidate(p, info) || AssocCandidate(p, info))
  }

  /** A type-to-traits map holding exactly the impl edges. */
  ghost predicate IndexesEdges(byType: map<string, set<string>>, edges: seq<(string, string)>) {
    forall ty, tr :: (ty in byType && tr in byType[ty]) <==> (ty, tr) in edges
  }

  lemma EdgeMapIndexes(byType: map<string, set<string>>, edges: seq<(string, string)>)
    requires forall ty :: ty in byType ==> byType[ty] == EdgeTraits(edges, ty)
    requires forall ty :: ty !in byType ==> EdgeTraits(edges, ty) == {}
    ensures IndexesEdges(byType, edges)
  {
    forall ty, tr | (ty, tr) in edges
      ensures ty in byType && tr in byType[ty]
    {
      assert tr in EdgeTraits(edges, ty);
    }
  }

  /** Pushes `ty: tr` for each trait of the set `pool`, in the set's
      (unspecified) iteration order. */
  method PushEdgePreds(acc: seq<WherePred>, ty: string, pool: set<string>) returns (r: seq<WherePred>)
    ensures forall q :: q in r <==>
              q in acc || (IsEdgeShaped(q) && TyIdent(q.bounded).value == ty && q.bounds[0].name in pool)
  {
    r := acc;
    var rest := pool;
    while rest != {}
      invariant rest <= pool
      invariant forall q :: q in r <==>
                  q in acc || (IsEdgeShaped(q) && TyIdent(q.bounded).value == ty && q.bounds[0].name in pool - rest)
      decreases |rest|
    {
      var tr :| tr in rest;
      forall q | IsEdgeShaped(q)
        ensures q == EdgePred(TyIdent(q.bounded).value, q.bounds[0].name)
      {
        EdgeShapedIs(q);
      }
      r := r + [EdgePred(ty, tr)];
      rest := rest - {tr};
    }
  }

  /** Local type parameters: `T: Trait` for each trait an impl edge gives
      `T` that is not already among `T`'s bounds. */
  method PushParamPreds(acc: seq<WherePred>, ps: seq<GenericParam>, byType: map<string, set<string>>,
                        ghost edges: seq<(string, string)>)
    returns (r: seq<WherePred>)
    requires IndexesEdges(byType, edges)
    ensures forall q :: q in acc ==> q in r
    ensures forall q :: q in r ==> q in acc || EdgeCandidate(q, edges)
  {
    r := acc;
    for k := 0 to |ps|
      invariant forall q :: q in acc ==> q in r
      invariant forall q :: q in r ==> q in acc || EdgeCandidate(q, edges)
    {
      if ps[k].TypeParam? {
        var p := ps[k];
        var pool := if p.name in byType then byType[p.name] else {};
        var rest := pool;
        while rest != {}
          invariant rest <= pool
          invariant forall q :: q in acc ==> q in r
          invariant forall q :: q in r ==> q in acc || EdgeCandidate(q, edges)
          decreases |rest|
        {
          var tr :| tr in rest;
          if !HasBound(p.bounds, tr) {
            r := r + [EdgePred(p.name, tr)];
          }
          rest := rest - {tr};
        }
      }
    }
  }

  /** Concrete types: `Ty: Trait` for every impl edge, the types taken in
      an unspecified order. */
  method PushConcretePreds(acc: seq<WherePred>, byType: map<string, set<string>>, ghost edges: seq<(string, string)>)
    returns (r: seq<WherePred>)
    requires IndexesEdges(byType, edges)
    ensures forall q :: q in r <==> q in acc || EdgeCandidate(q, edges)
  {
    r := acc;
    var tys := byType.Keys;
    while tys != {}
      invariant tys <= byType.Keys
      invariant forall q :: q in r <==>
                  q in acc || (EdgeCandidate(q, edges) && TyIdent(q.bounded).value !in tys)
      decreases |tys|
    {
      var ty :| ty in tys;
      r := PushEdgePreds(r, ty, byType[ty]);
      tys := tys - {ty};
    }
  }

  /** `<ty as tr>::assoc: Bound` for each trait `Bound` of the file. */
  method PushProjPreds(acc: seq<WherePred>, ty: string, tr: string, assoc: string, traits: seq<string>)
    returns (r: seq<WherePred>)
    ensures forall q :: q in r <==>
              q in acc || (IsProjShaped(q) && q.bounds[0].name in traits
                           && TyIdent(q.bounded.qself).value == ty && q.bounded.tr == tr && q.bounded.assoc == assoc)
  {
    r := acc;
    forall q | IsProjShaped(q)
      ensures q == ProjPred(TyIdent(q.bounded.qself).value, q.bounded.tr, q.bounded.assoc, q.bounds[0].name)
    {
      ProjShapedIs(q);
    }
    for k := 0 to |traits|
      invariant forall q :: q in r <==>
                  q in acc || (IsProjShaped(q) && q.bounds[0].name in traits[..k]
                               && TyIdent(q.bounded.qself).value == ty && q.bounded.tr == tr && q.bounded.assoc == assoc)
    {
      assert traits[..k + 1] == traits[..k] + [traits[k]];
      r := r + [ProjPred(ty, tr, assoc, traits[k])];
    }
    assert traits[..|traits|] == traits;
  }

  /** Projections of the associated-type bindings of impls. */
  method PushBindingPreds(acc: seq<WherePred>, info: TtdnInfo) returns (r: seq<WherePred>)
    ensures forall q :: q in r <==> q in acc || BindingCandidate(q, info)
  {
    r := acc;
    var bs := info.bindings;
    for k := 0 to |bs|
      invariant forall q :: q in r <==>
                  q in acc || (IsProjShaped(q) && q.bounds[0].name in info.traits
                               && exists b :: b in bs[..k] && ProjectsBinding(q, b))
    {
      assert bs[..k + 1] == bs[..k] + [bs[k]];
      forall q | IsProjShaped(q) && ProjectsBinding(q, bs[k])
        ensures exists b :: b in bs[..k + 1] && ProjectsBinding(q, b)
      {
        assert bs[k] in bs[..k + 1];
      }
      r := PushProjPreds(r, bs[k].selfTy, bs[k].traitName, bs[k].assoc, info.traits);
    }
    assert bs[..|bs|] == bs;
  }

  /** Projections of the associated types declared by traits, for every
      type implementing the trait. */
  method PushAssocPreds(acc: seq<WherePred>, info: TtdnInfo, byType: map<string, set<string>>) returns (r: seq<WherePred>)
    requires IndexesEdges(byType, info.implEdges)
    ensures forall q :: q in r <==> q in acc || AssocCandidate(q, info)
  {
    r := acc;
    var tas := info.traitAssocTypes;
    for k := 0 to |tas|
      invariant forall q :: q in r <==>
                  q in acc || (AssocCandidate(q, info) && (q.bounded.tr, q.bounded.assoc) in tas[..k])
    {
      assert tas[..k + 1] == tas[..k] + [tas[k]];
      var (tr, assoc) := tas[k];
      var tys := byType.Keys;
      ghost var r0 := r;
      while tys != {}
        invariant tys <= byType.Keys
        invariant forall q :: q in r <==>
                    q in r0 || (AssocCandidate(q, info) && (q.bounded.tr, q.bounded.assoc) == (tr, assoc)
                                && TyIdent(q.bounded.qself).value !in tys)
        decreases |tys|
      {
        var ty :| ty in tys;
        if tr in byType[ty] {
          r := PushProjPreds(r, ty, tr, assoc, info.traits);
        }
        tys := tys - {ty};
      }
    }
    assert tas[..|tas|] == tas;
  }

  /** `where_predicate_candidates` (with no blanket-impl templates): the
      local parameters' edge predicates, the self type's, every concrete
      type's, then the projection predicates; deduplicated, and those
      already in the where clause dropped. The candidates are exactly the
      where-candidates of the impl, each once, in an order that depends on
      hash-set iteration. */
  method WhereCandidates(g: Generics, selfTy: Ty, info: TtdnInfo) returns (cands: seq<WherePred>)
    ensures forall q :: q in cands <==> WhereCandidate(q, g, info)
    ensures Distinct(cands)
  {
    var byType := EdgeTraitsBySelf(info.implEdges);
    EdgeMapIndexes(byType, info.implEdges);
    var out: seq<WherePred> := [];
    out := PushParamPreds(out, g.params, byType, info.implEdges);
    match TyIdent(selfTy) {
      case Some(s) =>
        if s in byType {
          out := PushEdgePreds(out, s, byType[s]);
        }
      case None =>
    }
    ghost var before := out;
    assert forall q :: q in before ==> EdgeCandidate(q, info.implEdges);
    out := PushConcretePreds(out, byType, info.implEdges);
    out := PushBindingPreds(out, info);
    out := PushAssocPreds(out, info, byType);
    var d := Dedup(out);
    DedupedMembers(out);
    DedupedDistinct(out);
    cands := [];
    for k := 0 to |d|
      invariant forall q :: q in cands <==> q in d[..k] && q !in g.preds
      invariant forall i, j :: 0 <= i < j < |cands| ==> cands[i] != cands[j]
    {
      assert d[..k + 1] == d[..k] + [d[k]];
      if d[k] !in g.preds {
        cands := cands + [d[k]];
      }
    }
    assert d[..|d|] == d;
  }

  // ---------------------------------------------------------------------
  // Injection at one site

  datatype SiteKind = Supertrait | Where | GenericBound | AssocBound

  function KindOf(s: Site): SiteKind {
    match s
    case SupertraitSite(_, _) => Supertrait
    case WhereSite(_, _) => Where
    case GenericSite(_, _) => GenericBound
    case AssocBoundSite(_, _) => AssocBound
  }

  /** The bounds a site's injection pushes onto (none for a where site). */
  function SiteBounds(s: Site): seq<Bound> {
    match s
    case SupertraitSite(_, b) => b
    case WhereSite(_, _) => []
    case GenericSite(_, b) => b
    case AssocBoundSite(_, b) => b
  }

  /** The where-predicates a where site's injection pushes onto. */
  function SitePreds(s: Site): seq<WherePred> {
    if s.WhereSite? then s.generics.preds else []
  }

  /** The trait a supertrait site may not receive: itself. */
  function OwnOf(s: Site): Option<string> {
    if s.SupertraitSite? then Some(s.traitName) else None
  }

  /** The candidate bounds of a bound site. */
  function SiteCandidates(s: Site, traits: seq<string>): seq<Bound> {
    BoundCandidates(traits, SiteBounds(s), OwnOf(s))
  }

  /** `bounds` with candidate `idx % |cands|` pushed; unchanged when there
      is no candidate. */
  function Pushed(bounds: seq<Bound>, cands: seq<Bound>, idx: nat): seq<Bound> {
    if cands == [] then bounds else bounds + [cands[idx % |cands|]]
  }

  /** A bound list with the candidate at `idx` pushed: `inject_supertrait`,
      `inject_generic_bound` and `inject_assoc_bound` with trait list
      `traits` and the owning trait `own` excluded. */
  function PushCandidate(bounds: seq<Bound>, traits: seq<string>, own: Option<string>, idx: nat): seq<Bound> {
    Pushed(bounds, BoundCandidates(traits, bounds, own), idx)
  }

  /** Whether the injection at site `s` pushes something: a bound site
      needs a candidate; a where site, a chosen predicate `wp`. */
  predicate Pushes(s: Site, traits: seq<string>, idx: nat, wp: Option<WherePred>) {
    if s.WhereSite? then wp.Some? else SiteCandidates(s, traits) != []
  }

  /** The two sites agree in kind and in the constraints they carry. */
  predicate SameAt(a: Site, b: Site) {
    KindOf(a) == KindOf(b) && SiteBounds(a) == SiteBounds(b) && SitePreds(a) == SitePreds(b)
  }

  /** `b` is site `a` after the injection: the candidate at `idx` modulo
      the number of candidates pushed onto its bounds, or `wp` onto its
      where clause. */
  predicate InjectedAt(a: Site, b: Site, traits: seq<string>, idx: nat, wp: Option<WherePred>) {
    KindOf(a) == KindOf(b) &&
    if a.WhereSite? then
      SiteBounds(b) == [] && SitePreds(b) == (if wp.Some? then SitePreds(a) + [wp.value] else SitePreds(a))
    else
      SitePreds(b) == [] && SiteBounds(b) == PushCandidate(SiteBounds(a), traits, OwnOf(a), idx)
  }

  /** Site list `after` is `before` with the injection at index `l` and no
      other change to any site's constraints. */
  ghost predicate Injects(before: seq<Site>, after: seq<Site>, l: int, traits: seq<string>, idx: nat, wp: Option<WherePred>) {
    |after| == |before|
    && (forall i :: 0 <= i < |before| && i != l ==> SameAt(before[i], after[i]))
    && (0 <= l < |before| ==> InjectedAt(before[l], after[l], traits, idx, wp))
  }

  predicate PushesAt(sites: seq<Site>, l: int, traits: seq<string>, idx: nat, wp: Option<WherePred>) {
    0 <= l < |sites| && Pushes(sites[l], traits, idx, wp)
  }

  lemma InjectsAppend(a1: seq<Site>, b1: seq<Site>, a2: seq<Site>, b2: seq<Site>, l: int,
                      traits: seq<string>, idx: nat, wp: Option<WherePred>)
    requires Injects(a1, b1, l, traits, idx, wp)
    requires Injects(a2, b2, l - |a1|, traits, idx, wp)
    ensures Injects(a1 + a2, b1 + b2, l, traits, idx, wp)
    ensures PushesAt(a1 + a2, l, traits, idx, wp) <==>
              PushesAt(a1, l, traits, idx, wp) || PushesAt(a2, l - |a1|, traits, idx, wp)
  {
    var a, b := a1 + a2, b1 + b2;
    forall i | 0 <= i < |a| && i != l
      ensures SameAt(a[i], b[i])
    {
      if i < |a1| {
        assert a[i] == a1[i] && b[i] == b1[i];
      } else {
        assert a[i] == a2[i - |a1|] && b[i] == b2[i - |a1|];
      }
    }
    if 0 <= l < |a| {
      if l < |a1| {
        assert a[l] == a1[l] && b[l] == b1[l];
      } else {
        assert a[l] == a2[l - |a1|] && b[l] == b2[l - |a1|];
      }
    }
  }

  /** One step of an induction over a list whose sites are those of its
      prefix followed by those of its last element. */
  lemma InjectsStep(a: seq<Site>, b: seq<Site>, a1: seq<Site>, b1: seq<Site>, a2: seq<Site>, b2: seq<Site>,
                    l: int, l2: int, traits: seq<string>, idx: nat, wp: Option<WherePred>, same: bool, same1: bool, same2: bool)
    requires a == a1 + a2 && b == b1 + b2 && l2 == l - |a1|
    requires Injects(a1, b1, l, traits, idx, wp) && Injects(a2, b2, l2, traits, idx, wp)
    requires same1 == !PushesAt(a1, l, traits, idx, wp) && same2 == !PushesAt(a2, l2, traits, idx, wp)
    requires same == (same1 && same2)
    ensures Injects(a, b, l, traits, idx, wp)
    ensures same == !PushesAt(a, l, traits, idx, wp)
  {
    InjectsAppend(a1, b1, a2, b2, l, traits, idx, wp);
  }

  /** A site list with nothing at index `l` is left as it is. */
  lemma InjectsNothing(a: seq<Site>, l: int, traits: seq<string>, idx: nat, wp: Option<WherePred>)
    requires !(0 <= l < |a|)
    ensures Injects(a, a, l, traits, idx, wp)
    ensures !PushesAt(a, l, traits, idx, wp)
  {
  }

  // ---------------------------------------------------------------------
  // The injection as a function of the file

  /** `xs` with the injection applied by `inj` to each element at the
      element's own local site index: `l` less the number of sites of the
      elements before it. */
  function InjectEach<T>(xs: seq<T>, l: int, sites: T -> seq<Site>, inj: (T, int) -> T): (r: seq<T>)
    ensures |r| == |xs|
  {
    if xs == [] then []
    else [inj(xs[0], l)] + InjectEach(xs[1..], l - |sites(xs[0])|, sites, inj)
  }

  /** Injecting a list with one more element at the end. */
  lemma {:induction false} InjectEachSnoc<T>(ys: seq<T>, y: T, l: int, sites: T -> seq<Site>, inj: (T, int) -> T)
    ensures InjectEach(ys + [y], l, sites, inj) == InjectEach(ys, l, sites, inj) + [inj(y, l - |FlatMap(ys, sites)|)]
    decreases |ys|
  {
    if ys == [] {
      assert ys + [y] == [y];
    } else {
      var l' := l - |sites(ys[0])|;
      assert (ys + [y])[0] == ys[0] && (ys + [y])[1..] == ys[1..] + [y];
      InjectEachSnoc(ys[1..], y, l', sites, inj);
      FlatMapCons(ys, sites);
    }
  }

  lemma InjectEachStep<T>(xs: seq<T>, l: int, sites: T -> seq<Site>, inj: (T, int) -> T, n: nat)
    requires n < |xs|
    ensures InjectEach(xs[..n + 1], l, sites, inj)
              == InjectEach(xs[..n], l, sites, inj) + [inj(xs[n], l - |FlatMap(xs[..n], sites)|)]
  {
    assert xs[..n + 1] == xs[..n] + [xs[n]];
    InjectEachSnoc(xs[..n], xs[n], l, sites, inj);
  }

  /** A type parameter whose local site index is `l`. */
  function InjectParam(p: GenericParam, l: int, traits: seq<string>, idx: nat): GenericParam {
    if p.TypeParam? && l == 0 then p.(bounds := PushCandidate(p.bounds, traits, None, idx)) else p
  }

  function ParamInjector(traits: seq<string>, idx: nat): (GenericParam, int) -> GenericParam {
    (p: GenericParam, l: int) => InjectParam(p, l, traits, idx)
  }

  /** The parameter list with the type parameter at site index `l` given
      a new bound. */
  function InjectParams(ps: seq<GenericParam>, l: int, traits: seq<string>, idx: nat): seq<GenericParam> {
    InjectEach(ps, l, ParamSite, ParamInjector(traits, idx))
  }

  function WithParams(g: Generics, ps: seq<GenericParam>): Generics {
    g.(params := ps)
  }

  function WithSigParams(sig: Signature, ps: seq<GenericParam>): Signature {
    sig.(generics := sig.generics.(params := ps))
  }

  /** `visit_trait_item_type_mut` and the method signatures of a trait. */
  function InjectTraitMember(m: TraitMember, l: int, traits: seq<string>, idx: nat): TraitMember {
    match m
    case AssocType(n, g, b, d) => if l == 0 then AssocType(n, g, PushCandidate(b, traits, None, idx), d) else m
    case Method(sig, body) => Method(WithSigParams(sig, InjectParams(sig.generics.params, l, traits, idx)), body)
    case _ => m
  }

  function TraitMemberInjector(traits: seq<string>, idx: nat): (TraitMember, int) -> TraitMember {
    (m: TraitMember, l: int) => InjectTraitMember(m, l, traits, idx)
  }

  function InjectImplMember(m: ImplMember, l: int, traits: seq<string>, idx: nat): ImplMember {
    match m
    case AssocTypeDef(n, g, ty) => AssocTypeDef(n, WithParams(g, InjectParams(g.params, l, traits, idx)), ty)
    case MethodDef(sig, body) => MethodDef(WithSigParams(sig, InjectParams(sig.generics.params, l, traits, idx)), body)
    case _ => m
  }

  function ImplMemberInjector(traits: seq<string>, idx: nat): (ImplMember, int) -> ImplMember {
    (m: ImplMember, l: int) => InjectImplMember(m, l, traits, idx)
  }

  /** A trait's members with the injection at their local site index `l`. */
  function InjectTraitMembers(ms: seq<TraitMember>, l: int, traits: seq<string>, idx: nat): seq<TraitMember> {
    InjectEach(ms, l, TraitMemberSites, TraitMemberInjector(traits, idx))
  }

  /** An impl's members with the injection at their local site index `l`. */
  function InjectImplMembers(ms: seq<ImplMember>, l: int, traits: seq<string>, idx: nat): seq<ImplMember> {
    InjectEach(ms, l, ImplMemberSites, ImplMemberInjector(traits, idx))
  }

  /** The item with the injection at its local site index `l`: the
      supertrait or where site first, then the item's type parameters,
      then its members. */
  function InjectItem(it: Item, l: int, traits: seq<string>, idx: nat, wp: Option<WherePred>): Item {
    match it
    case TraitDef(n, g, sup, ms) =>
      TraitDef(n, WithParams(g, InjectParams(g.params, l - 1, traits, idx)),
               if l == 0 then PushCandidate(sup, traits, Some(n), idx) else sup,
               InjectTraitMembers(ms, l - 1 - |ParamSites(g.params)|, traits, idx))
    case ImplDef(g, tr, selfTy, ms) =>
      ImplDef(Generics(InjectParams(g.params, l - 1, traits, idx),
                       if l == 0 && wp.Some? then g.preds + [wp.value] else g.preds),
              tr, selfTy,
              InjectImplMembers(ms, l - 1 - |ParamSites(g.params)|, traits, idx))
    case StructDef(n, g, fs) => StructDef(n, WithParams(g, InjectParams(g.params, l, traits, idx)), fs)
    case EnumDef(n, g, vs) => EnumDef(n, WithParams(g, InjectParams(g.params, l, traits, idx)), vs)
    case FnDef(sig, body) => FnDef(WithSigParams(sig, InjectParams(sig.generics.params, l, traits, idx)), body)
    case OtherItem(_) => it
  }

  function ItemInjector(traits: seq<string>, idx: nat, wp: Option<WherePred>): (Item, int) -> Item {
    (it: Item, l: int) => InjectItem(it, l, traits, idx, wp)
  }

  /** The file with the injection at site index `l` of its constraint
      sites: a supertrait, a generic or an associated-type bound drawn
      from the candidates at `idx`, or the where-predicate `wp`. */
  function InjectFile(file: File, l: int, traits: seq<string>, idx: nat, wp: Option<WherePred>): File {
    InjectEach(file, l, ItemSites, ItemInjector(traits, idx, wp))
  }

  // ---------------------------------------------------------------------
  // The injection edits one site and nothing else

  /** A site list of one site, injected at local index `l`. */
  lemma OneSiteInjects(a: Site, b: Site, l: int, traits: seq<string>, idx: nat, wp: Option<WherePred>)
    requires l == 0 ==> InjectedAt(a, b, traits, idx, wp)
    requires l != 0 ==> SameAt(a, b)
    ensures Injects([a], [b], l, traits, idx, wp)
  {
  }

  /** A list built as a prefix and a last element equals `xs` exactly when
      the prefix and the last element are those of `xs`. */
  lemma SplitLast<T>(xs: seq<T>, r: seq<T>, ys: seq<T>, y: T)
    requires |xs| > 0 && r == ys + [y]
    ensures (r == xs) == (ys == xs[..|xs| - 1] && y == xs[|xs| - 1])
  {
    if r == xs {
      assert r[..|ys|] == ys;
    }
    if ys == xs[..|xs| - 1] && y == xs[|xs| - 1] {
      assert xs == xs[..|xs| - 1] + [xs[|xs| - 1]];
    }
  }

  /** A list built as a first element and the rest equals `xs` exactly
      when the first element and the rest are those of `xs`. */
  lemma SplitFirst<T>(xs: seq<T>, r: seq<T>, y: T, ys: seq<T>)
    requires |xs| > 0 && r == [y] + ys
    ensures (r == xs) == (y == xs[0] && ys == xs[1..])
  {
    if r == xs {
      assert r[1..] == ys;
    }
    if y == xs[0] && ys == xs[1..] {
      assert xs == [xs[0]] + xs[1..];
    }
  }

  /** `inj` injects at an element's local site index, and leaves the
      element as it is exactly when the injection has nothing to push. */
  ghost predicate InjectsElements<T(!new)>(sites: T -> seq<Site>, inj: (T, int) -> T,
                                     traits: seq<string>, idx: nat, wp: Option<WherePred>) {
    forall x: T, k: int ::
      Injects(sites(x), sites(inj(x, k)), k, traits, idx, wp) && (inj(x, k) == x <==> !PushesAt(sites(x), k, traits, idx, wp))
  }

  lemma {:induction false} InjectEachInjects<T(!new)>(xs: seq<T>, l: int, sites: T -> seq<Site>, inj: (T, int) -> T,
                                               traits: seq<string>, idx: nat, wp: Option<WherePred>)
    requires InjectsElements(sites, inj, traits, idx, wp)
    ensures Injects(FlatMap(xs, sites), FlatMap(InjectEach(xs, l, sites, inj), sites), l, traits, idx, wp)
    ensures InjectEach(xs, l, sites, inj) == xs <==> !PushesAt(FlatMap(xs, sites), l, traits, idx, wp)
    decreases |xs|
  {
    if xs == [] {
      InjectsNothing([], l, traits, idx, wp);
    } else {
      var l' := l - |sites(xs[0])|;
      var first := inj(xs[0], l);
      var rest := InjectEach(xs[1..], l', sites, inj);
      var r := InjectEach(xs, l, sites, inj);
      InjectEachInjects(xs[1..], l', sites, inj, traits, idx, wp);
      assert r == [first] + rest;
      assert r[0] == first && r[1..] == rest;
      SplitFirst(xs, r, first, rest);
      FlatMapCons(xs, sites);
      FlatMapCons(r, sites);
      InjectsStep(FlatMap(xs, sites), FlatMap(r, sites), sites(xs[0]), sites(first), FlatMap(xs[1..], sites), FlatMap(rest, sites),
                  l, l', traits, idx, wp, r == xs, first == xs[0], rest == xs[1..]);
    }
  }

  lemma ParamInjects(p: GenericParam, l: int, traits: seq<string>, idx: nat, wp: Option<WherePred>)
    ensures Injects(ParamSite(p), ParamSite(InjectParam(p, l, traits, idx)), l, traits, idx, wp)
    ensures InjectParam(p, l, traits, idx) == p <==> !PushesAt(ParamSite(p), l, traits, idx, wp)
  {
    if p.TypeParam? && l == 0 {
      var p' := InjectParam(p, l, traits, idx);
      OneSiteInjects(GenericSite(p.name, p.bounds), GenericSite(p'.name, p'.bounds), l, traits, idx, wp);
    }
  }

  lemma ParamsInject(ps: seq<GenericParam>, l: int, traits: seq<string>, idx: nat, wp: Option<WherePred>)
    ensures Injects(ParamSites(ps), ParamSites(InjectParams(ps, l, traits, idx)), l, traits, idx, wp)
    ensures InjectParams(ps, l, traits, idx) == ps <==> !PushesAt(ParamSites(ps), l, traits, idx, wp)
  {
    forall p: GenericParam, k: int
      ensures Injects(ParamSite(p), ParamSite(InjectParam(p, k, traits, idx)), k, traits, idx, wp)
      ensures InjectParam(p, k, traits, idx) == p <==> !PushesAt(ParamSite(p), k, traits, idx, wp)
    {
      ParamInjects(p, k, traits, idx, wp);
    }
    InjectEachInjects(ps, l, ParamSite, ParamInjector(traits, idx), traits, idx, wp);
  }

  lemma TraitMemberInjects(m: TraitMember, l: int, traits: seq<string>, idx: nat, wp: Option<WherePred>)
    ensures Injects(TraitMemberSites(m), TraitMemberSites(InjectTraitMember(m, l, traits, idx)), l, traits, idx, wp)
    ensures InjectTraitMember(m, l, traits, idx) == m <==> !PushesAt(TraitMemberSites(m), l, traits, idx, wp)
  {
    match m
    case AssocType(n, g, b, d) =>
      OneSiteInjects(AssocBoundSite(n, b), AssocBoundSite(n, InjectTraitMember(m, l, traits, idx).bounds), l, traits, idx, wp);
    case Method(sig, body) =>
      ParamsInject(sig.generics.params, l, traits, idx, wp);
    case AssocConst(_, _, _) =>
      InjectsNothing([], l, traits, idx, wp);
    case OtherTraitMember(_) =>
      InjectsNothing([], l, traits, idx, wp);
  }

  lemma TraitMembersInject(ms: seq<TraitMember>, l: int, traits: seq<string>, idx: nat, wp: Option<WherePred>)
    ensures var r := InjectTraitMembers(ms, l, traits, idx);
            && Injects(FlatMap(ms, TraitMemberSites), FlatMap(r, TraitMemberSites), l, traits, idx, wp)
            && (r == ms <==> !PushesAt(FlatMap(ms, TraitMemberSites), l, traits, idx, wp))
  {
    forall m: TraitMember, k: int
      ensures Injects(TraitMemberSites(m), TraitMemberSites(InjectTraitMember(m, k, traits, idx)), k, traits, idx, wp)
      ensures InjectTraitMember(m, k, traits, idx) == m <==> !PushesAt(TraitMemberSites(m), k, traits, idx, wp)
    {
      TraitMemberInjects(m, k, traits, idx, wp);
    }
    InjectEachInjects(ms, l, TraitMemberSites, TraitMemberInjector(traits, idx), traits, idx, wp);
  }

  lemma ImplMemberInjects(m: ImplMember, l: int, traits: seq<string>, idx: nat, wp: Option<WherePred>)
    ensures Injects(ImplMemberSites(m), ImplMemberSites(InjectImplMember(m, l, traits, idx)), l, traits, idx, wp)
    ensures InjectImplMember(m, l, traits, idx) == m <==> !PushesAt(ImplMemberSites(m), l, traits, idx, wp)
  {
    match m
    case AssocTypeDef(n, g, ty) =>
      ParamsInject(g.params, l, traits, idx, wp);
    case MethodDef(sig, body) =>
      ParamsInject(sig.generics.params, l, traits, idx, wp);
    case ConstDef(_, _, _) =>
      InjectsNothing([], l, traits, idx, wp);
    case OtherImplMember(_) =>
      InjectsNothing([], l, traits, idx, wp);
  }

  lemma ImplMembersInject(ms: seq<ImplMember>, l: int, traits: seq<string>, idx: nat, wp: Option<WherePred>)
    ensures var r := InjectImplMembers(ms, l, traits, idx);
            && Injects(FlatMap(ms, ImplMemberSites), FlatMap(r, ImplMemberSites), l, traits, idx, wp)
            && (r == ms <==> !PushesAt(FlatMap(ms, ImplMemberSites), l, traits, idx, wp))
  {
    forall m: ImplMember, k: int
      ensures Injects(ImplMemberSites(m), ImplMemberSites(InjectImplMember(m, k, traits, idx)), k, traits, idx, wp)
      ensures InjectImplMember(m, k, traits, idx) == m <==> !PushesAt(ImplMemberSites(m), k, traits, idx, wp)
    {
      ImplMemberInjects(m, k, traits, idx, wp);
    }
    InjectEachInjects(ms, l, ImplMemberSites, ImplMemberInjector(traits, idx), traits, idx, wp);
  }

  /** The supertrait site and the type parameters of a trait. */
  lemma TraitHeadInjects(n: string, g: Generics, sup: seq<Bound>, l: int, traits: seq<string>, idx: nat, wp: Option<WherePred>)
    ensures var ps := InjectParams(g.params, l - 1, traits, idx);
            var sup' := if l == 0 then PushCandidate(sup, traits, Some(n), idx) else sup;
            var a := [SupertraitSite(n, sup)] + ParamSites(g.params);
            && Injects(a, [SupertraitSite(n, sup')] + ParamSites(ps), l, traits, idx, wp)
            && ((sup' == sup && ps == g.params) == !PushesAt(a, l, traits, idx, wp))
  {
    var ps := InjectParams(g.params, l - 1, traits, idx);
    var sup' := if l == 0 then PushCandidate(sup, traits, Some(n), idx) else sup;
    var a0, b0 := SupertraitSite(n, sup), SupertraitSite(n, sup');
    OneSiteInjects(a0, b0, l, traits, idx, wp);
    ParamsInject(g.params, l - 1, traits, idx, wp);
    InjectsStep([a0] + ParamSites(g.params), [b0] + ParamSites(ps), [a0], [b0], ParamSites(g.params), ParamSites(ps),
                l, l - 1, traits, idx, wp, sup' == sup && ps == g.params, sup' == sup, ps == g.params);
  }

  /** How the injection rebuilds a trait. */
  lemma TraitItemShape(n: string, g: Generics, sup: seq<Bound>, ms: seq<TraitMember>,
                       l: int, traits: seq<string>, idx: nat, wp: Option<WherePred>)
    ensures var ps := InjectParams(g.params, l - 1, traits, idx);
            var sup' := if l == 0 then PushCandidate(sup, traits, Some(n), idx) else sup;
            var ms' := InjectTraitMembers(ms, l - 1 - |ParamSites(g.params)|, traits, idx);
            InjectItem(TraitDef(n, g, sup, ms), l, traits, idx, wp) == TraitDef(n, WithParams(g, ps), sup', ms')
  {
  }

  /** A trait's sites: its supertrait site, then its type parameters',
      then its members'. */
  lemma TraitItemInjects(n: string, g: Generics, sup: seq<Bound>, ms: seq<TraitMember>,
                         l: int, traits: seq<string>, idx: nat, wp: Option<WherePred>)
    ensures var it := TraitDef(n, g, sup, ms);
            && Injects(ItemSites(it), ItemSites(InjectItem(it, l, traits, idx, wp)), l, traits, idx, wp)
            && (InjectItem(it, l, traits, idx, wp) == it <==> !PushesAt(ItemSites(it), l, traits, idx, wp))
  {
    var it := TraitDef(n, g, sup, ms);
    var ps := InjectParams(g.params, l - 1, traits, idx);
    var sup' := if l == 0 then PushCandidate(sup, traits, Some(n), idx) else sup;
    var off := l - 1 - |ParamSites(g.params)|;
    var ms' := InjectTraitMembers(ms, off, traits, idx);
    var it' := TraitDef(n, WithParams(g, ps), sup', ms');
    TraitItemShape(n, g, sup, ms, l, traits, idx, wp);
    assert InjectItem(it, l, traits, idx, wp) == it';
    assert (it' == it) == (sup' == sup && ps == g.params && ms' == ms);
    TraitHeadInjects(n, g, sup, l, traits, idx, wp);
    TraitMembersInject(ms, off, traits, idx, wp);
    InjectsStep(ItemSites(it), ItemSites(it'),
                [SupertraitSite(n, sup)] + ParamSites(g.params), [SupertraitSite(n, sup')] + ParamSites(ps),
                FlatMap(ms, TraitMemberSites), FlatMap(ms', TraitMemberSites),
                l, off, traits, idx, wp, it' == it, sup' == sup && ps == g.params, ms' == ms);
  }

  /** The where site and the type parameters of an impl. */
  lemma ImplHeadInjects(g: Generics, selfTy: Ty, l: int, traits: seq<string>, idx: nat, wp: Option<WherePred>)
    ensures var ps := InjectParams(g.params, l - 1, traits, idx);
            var preds := if l == 0 && wp.Some? then g.preds + [wp.value] else g.preds;
            var a := [WhereSite(g, selfTy)] + ParamSites(g.params);
            && Injects(a, [WhereSite(Generics(ps, preds), selfTy)] + ParamSites(ps), l, traits, idx, wp)
            && ((preds == g.preds && ps == g.params) == !PushesAt(a, l, traits, idx, wp))
  {
    var ps := InjectParams(g.params, l - 1, traits, idx);
    var preds := if l == 0 && wp.Some? then g.preds + [wp.value] else g.preds;
    var a0, b0 := WhereSite(g, selfTy), WhereSite(Generics(ps, preds), selfTy);
    OneSiteInjects(a0, b0, l, traits, idx, wp);
    ParamsInject(g.params, l - 1, traits, idx, wp);
    InjectsStep([a0] + ParamSites(g.params), [b0] + ParamSites(ps), [a0], [b0], ParamSites(g.params), ParamSites(ps),
                l, l - 1, traits, idx, wp, preds == g.preds && ps == g.params, preds == g.preds, ps == g.params);
  }

  /** How the injection rebuilds an impl. */
  lemma ImplItemShape(g: Generics, tr: Option<TraitRef>, selfTy: Ty, ms: seq<ImplMember>,
                      l: int, traits: seq<string>, idx: nat, wp: Option<WherePred>)
    ensures var ps := InjectParams(g.params, l - 1, traits, idx);
            var preds := if l == 0 && wp.Some? then g.preds + [wp.value] else g.preds;
            var ms' := InjectImplMembers(ms, l - 1 - |ParamSites(g.params)|, traits, idx);
            InjectItem(ImplDef(g, tr, selfTy, ms), l, traits, idx, wp) == ImplDef(Generics(ps, preds), tr, selfTy, ms')
  {
  }

  /** An impl's sites: its where site, then its type parameters', then its
      members'. */
  lemma ImplItemInjects(g: Generics, tr: Option<TraitRef>, selfTy: Ty, ms: seq<ImplMember>,
                        l: int, traits: seq<string>, idx: nat, wp: Option<WherePred>)
    ensures var it := ImplDef(g, tr, selfTy, ms);
            && Injects(ItemSites(it), ItemSites(InjectItem(it, l, traits, idx, wp)), l, traits, idx, wp)
            && (InjectItem(it, l, traits, idx, wp) == it <==> !PushesAt(ItemSites(it), l, traits, idx, wp))
  {
    var it := ImplDef(g, tr, selfTy, ms);
    var ps := InjectParams(g.params, l - 1, traits, idx);
    var preds := if l == 0 && wp.Some? then g.preds + [wp.value] else g.preds;
    var off := l - 1 - |ParamSites(g.params)|;
    var ms' := InjectImplMembers(ms, off, traits, idx);
    var it' := ImplDef(Generics(ps, preds), tr, selfTy, ms');
    ImplItemShape(g, tr, selfTy, ms, l, traits, idx, wp);
    assert InjectItem(it, l, traits, idx, wp) == it';
    assert (it' == it) == (preds == g.preds && ps == g.params && ms' == ms);
    ImplHeadInjects(g, selfTy, l, traits, idx, wp);
    ImplMembersInject(ms, off, traits, idx, wp);
    InjectsStep(ItemSites(it), ItemSites(it'),
                [WhereSite(g, selfTy)] + ParamSites(g.params), [WhereSite(Generics(ps, preds), selfTy)] + ParamSites(ps),
                FlatMap(ms, ImplMemberSites), FlatMap(ms', ImplMemberSites),
                l, off, traits, idx, wp, it' == it, preds == g.preds && ps == g.params, ms' == ms);
  }

  lemma ItemInjects(it: Item, l: int, traits: seq<string>, idx: nat, wp: Option<WherePred>)
    ensures Injects(ItemSites(it), ItemSites(InjectItem(it, l, traits, idx, wp)), l, traits, idx, wp)
    ensures InjectItem(it, l, traits, idx, wp) == it <==> !PushesAt(ItemSites(it), l, traits, idx, wp)
  {
    match it
    case TraitDef(n, g, sup, ms) => TraitItemInjects(n, g, sup, ms, l, traits, idx, wp);
    case ImplDef(g, tr, selfTy, ms) => ImplItemInjects(g, tr, selfTy, ms, l, traits, idx, wp);
    case StructDef(_, g, _) => ParamsInject(g.params, l, traits, idx, wp);
    case EnumDef(_, g, _) => ParamsInject(g.params, l, traits, idx, wp);
    case FnDef(sig, _) => ParamsInject(sig.generics.params, l, traits, idx, wp);
    case OtherItem(_) => InjectsNothing([], l, traits, idx, wp);
  }

  /** The injection at site `l` of a file changes the constraints of that
      site and of no other, in the way its kind prescribes, and changes
      the file exactly when the site has something to push. */
  lemma InjectFileSites(file: File, l: int, traits: seq<string>, idx: nat, wp: Option<WherePred>)
    ensures Injects(ConstraintSites(file), ConstraintSites(InjectFile(file, l, traits, idx, wp)), l, traits, idx, wp)
    ensures InjectFile(file, l, traits, idx, wp) == file <==> !PushesAt(ConstraintSites(file), l, traits, idx, wp)
  {
    forall it: Item, k: int
      ensures Injects(ItemSites(it), ItemSites(InjectItem(it, k, traits, idx, wp)), k, traits, idx, wp)
      ensures InjectItem(it, k, traits, idx, wp) == it <==> !PushesAt(ItemSites(it), k, traits, idx, wp)
    {
      ItemInjects(it, k, traits, idx, wp);
    }
    InjectEachInjects(file, l, ItemSites, ItemInjector(traits, idx, wp), traits, idx, wp);
  }
}
