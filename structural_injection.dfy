/** The older, randomised constraint injection: its sites are those of the
    TTDN constraint-site list (a trait, an impl, a type parameter, a
    trait's associated type, in visiting order); at the target site it
    draws one trait, or for an impl one where-predicate, and pushes it
    unless the site already has it. The random draws are a `Draws` value,
    so every outcome the mutator can produce is the edit for some draws. */
module StructuralInjection {
  import opened Wrappers
  import opened Syntax
  import opened Flatten
  import opened Ttdn
  import opened Framework
  import ConstraintInjection
  import ProjectionRewrite

  // ---------------------------------------------------------------------
  // Choosing a trait

  /** The trait used when the file offers none. */
  const FallbackTrait := "Copy"

  /** The file's traits that are not excluded, in order. */
  function Unexcluded(traits: seq<string>, excluded: seq<string>): (r: seq<string>)
    ensures forall t :: t in r <==> t in traits && t !in excluded
  {
    if traits == [] then []
    else (if traits[0] in excluded then [] else [traits[0]]) + Unexcluded(traits[1..], excluded)
  }

  /** A trait `choose_trait_prefer_custom` may return: a file trait not
      excluded, or `Copy` when every file trait is excluded. */
  predicate Admissible(t: string, traits: seq<string>, excluded: seq<string>) {
    (t in traits && t !in excluded) || (t == FallbackTrait && forall u :: u in traits ==> u in excluded)
  }

  /** `choose_trait_prefer_custom` for a given draw. */
  function ChooseTrait(traits: seq<string>, excluded: seq<string>, draw: nat): (r: string)
    ensures Admissible(r, traits, excluded)
    ensures (exists t :: t in traits && t !in excluded) ==> r in traits && r !in excluded
  {
    var c := Unexcluded(traits, excluded);
    if c == [] then FallbackTrait else c[draw % |c|]
  }

  /** Every admissible file trait is the choice of some draw. */
  lemma ChooseTraitCovers(traits: seq<string>, excluded: seq<string>, t: string)
    requires t in traits && t !in excluded
    ensures exists draw: nat :: ChooseTrait(traits, excluded, draw) == t
  {
    var c := Unexcluded(traits, excluded);
    assert t in c;
    var k :| 0 <= k < |c| && c[k] == t;
    ModBelow(k, |c|);
    assert ChooseTrait(traits, excluded, k) == c[k % |c|];
  }

  // ---------------------------------------------------------------------
  // Choosing an impl where-predicate

  /** The outcomes of the random draws one injection makes: the three coin
      flips (a projection predicate, an associated-type equality, an
      unrelated impl edge) and the indices of the random choices. */
  datatype Draws = Draws(
    projection: bool, equality: bool, unrelated: bool,
    binding: nat, assoc: nat, implTy: nat, param: nat, edge: nat, pick: nat)

  function BindingsFor(bs: seq<Binding>, ty: string): (r: seq<Binding>)
    ensures forall b :: b in r <==> b in bs && b.selfTy == ty
  {
    if bs == [] then []
    else (if bs[0].selfTy == ty then [bs[0]] else []) + BindingsFor(bs[1..], ty)
  }

  /** The types with an impl of `tr`. */
  function ImplementorsOf(edges: seq<(string, string)>, tr: string): (r: seq<string>)
    ensures forall ty :: ty in r <==> (ty, tr) in edges
  {
    if edges == [] then []
    else (if edges[0].1 == tr then [edges[0].0] else []) + ImplementorsOf(edges[1..], tr)
  }

  /** The traits `ty` has an impl of. */
  function TraitsOf(edges: seq<(string, string)>, ty: string): (r: seq<string>)
    ensures forall tr :: tr in r <==> (ty, tr) in edges
  {
    if edges == [] then []
    else (if edges[0].0 == ty then [edges[0].1] else []) + TraitsOf(edges[1..], ty)
  }

  /** The impl edges whose type is not the impl's own self type. */
  function EdgesAvoiding(edges: seq<(string, string)>, selfId: Option<string>): (r: seq<(string, string)>)
    ensures forall e :: e in r <==> e in edges && (selfId.None? || e.0 != selfId.value)
  {
    if edges == [] then []
    else (if selfId.None? || edges[0].0 != selfId.value then [edges[0]] else []) + EdgesAvoiding(edges[1..], selfId)
  }

  /** `<SelfTy as Trait>::Assoc = Rhs` for an impl's associated-type
      binding. */
  function ProjEq(b: Binding): WherePred {
    EqPred(QSelfTy(IdentTy(b.selfTy), b.traitName, b.assoc), b.rhs)
  }

  /** `choose_projection_where_predicate`: from a binding (of the impl's
      own self type when there is one) an equality or a bound on its
      projection; without bindings, a bound on the projection of a
      declared associated type for a type implementing its trait. */
  function ProjectionPredicate(info: TtdnInfo, selfId: Option<string>, d: Draws): Option<WherePred> {
    var own := if selfId.Some? then BindingsFor(info.bindings, selfId.value) else [];
    var pool := if own != [] then own else info.bindings;
    if pool != [] then
      var b := pool[d.binding % |pool|];
      if d.equality then Some(ProjEq(b))
      else Some(ConstraintInjection.ProjPred(b.selfTy, b.traitName, b.assoc, ChooseTrait(info.traits, [], d.pick)))
    else if info.traitAssocTypes == [] then None
    else
      var ta := info.traitAssocTypes[d.assoc % |info.traitAssocTypes|];
      var tys := ImplementorsOf(info.implEdges, ta.0);
      if tys == [] then None
      else Some(ConstraintInjection.ProjPred(tys[d.implTy % |tys|], ta.0, ta.1, ChooseTrait(info.traits, [ta.0], d.pick)))
  }

  /** `choose_where_predicate_for_generics`: a local type parameter bound
      by a chosen trait; else the self type bound by one of its traits, or
      by a chosen trait; else any impl edge; else the first file type
      bound by a chosen trait. */
  function GenericsPredicate(info: TtdnInfo, g: Generics, selfId: Option<string>, excluded: seq<string>, d: Draws): Option<WherePred> {
    var local := TypeParamNames(g.params);
    if local != [] then
      Some(ConstraintInjection.EdgePred(local[d.param % |local|], ChooseTrait(info.traits, excluded, d.pick)))
    else if selfId.Some? then
      var matching := TraitsOf(info.implEdges, selfId.value);
      if matching != [] then Some(ConstraintInjection.EdgePred(selfId.value, matching[d.edge % |matching|]))
      else Some(ConstraintInjection.EdgePred(selfId.value, ChooseTrait(info.traits, excluded, d.pick)))
    else if info.implEdges != [] then
      var e := info.implEdges[d.edge % |info.implEdges|];
      Some(ConstraintInjection.EdgePred(e.0, e.1))
    else if info.types != [] then
      Some(ConstraintInjection.EdgePred(info.types[0], ChooseTrait(info.traits, excluded, d.pick)))
    else None
  }

  /** `choose_impl_where_predicate`: on the first coin a projection
      predicate when one exists; else a local type parameter bound by a
      chosen trait; else, on the second coin, an impl edge of another type;
      else the choice for the impl's generics and self type. */
  function ImplWherePredicate(info: TtdnInfo, g: Generics, selfTy: Ty, d: Draws): Option<WherePred> {
    var selfId := TyIdent(selfTy);
    var proj := ProjectionPredicate(info, selfId, d);
    var local := TypeParamNames(g.params);
    if d.projection && proj.Some? then proj
    else if local != [] then
      Some(ConstraintInjection.EdgePred(local[d.param % |local|], ChooseTrait(info.traits, [], d.pick)))
    else
      var unrelated := EdgesAvoiding(info.implEdges, selfId);
      if d.unrelated && unrelated != [] then
        var e := unrelated[d.edge % |unrelated|];
        Some(ConstraintInjection.EdgePred(e.0, e.1))
      else GenericsPredicate(info, g, selfId, [], d)
  }

  // ---------------------------------------------------------------------
  // Where a chosen predicate comes from

  /** The equality or the bound drawn from binding `b`. */
  predicate FromBinding(p: WherePred, b: Binding, traits: seq<string>) {
    p == ProjEq(b) ||
    (ConstraintInjection.IsProjShaped(p) && ConstraintInjection.ProjectsBinding(p, b) &&
     Admissible(p.bounds[0].name, traits, []))
  }

  /** A bound on `<Ty as Trait>::Assoc` for an associated type `Trait`
      declares and a type with an impl of `Trait`. */
  predicate FromAssocDecl(p: WherePred, info: TtdnInfo) {
    && ConstraintInjection.IsProjShaped(p)
    && (p.bounded.tr, p.bounded.assoc) in info.traitAssocTypes
    && (TyIdent(p.bounded.qself).value, p.bounded.tr) in info.implEdges
    && Admissible(p.bounds[0].name, info.traits, [p.bounded.tr])
  }

  /** `T: Trait` for a type parameter `T` of the impl. */
  predicate FromParam(p: WherePred, g: Generics, traits: seq<string>) {
    ConstraintInjection.IsEdgeShaped(p) && TyIdent(p.bounded).value in TypeParamNames(g.params)
    && Admissible(p.bounds[0].name, traits, [])
  }

  /** `SelfTy: Trait` for an impl edge of the self type or a chosen trait. */
  predicate FromSelf(p: WherePred, selfTy: Ty, info: TtdnInfo) {
    ConstraintInjection.IsEdgeShaped(p) && TyIdent(selfTy) == TyIdent(p.bounded)
    && ((TyIdent(selfTy).value, p.bounds[0].name) in info.implEdges || Admissible(p.bounds[0].name, info.traits, []))
  }

  /** `Ty: Trait` for the first file type and a chosen trait. */
  predicate FromFirstType(p: WherePred, info: TtdnInfo) {
    ConstraintInjection.IsEdgeShaped(p) && info.types != [] && TyIdent(p.bounded).value == info.types[0]
    && Admissible(p.bounds[0].name, info.traits, [])
  }

  ghost predicate ImplPredicateOrigin(p: WherePred, info: TtdnInfo, g: Generics, selfTy: Ty) {
    || (exists b :: b in info.bindings && FromBinding(p, b, info.traits))
    || FromAssocDecl(p, info)
    || FromParam(p, g, info.traits)
    || ConstraintInjection.EdgeCandidate(p, info.implEdges)
    || FromSelf(p, selfTy, info)
    || FromFirstType(p, info)
  }

  /** A projection predicate comes from a binding whenever the file has
      one, from one of the impl's own self type whenever that has one,
      and otherwise from an associated-type declaration. */
  lemma ProjectionPredicateOrigin(info: TtdnInfo, selfId: Option<string>, d: Draws)
    ensures var r := ProjectionPredicate(info, selfId, d);
            info.bindings != [] ==> r.Some? && exists b :: b in info.bindings && FromBinding(r.value, b, info.traits)
    ensures var r := ProjectionPredicate(info, selfId, d);
            selfId.Some? && (exists b :: b in info.bindings && b.selfTy == selfId.value) ==>
              r.Some? && exists b :: b in info.bindings && b.selfTy == selfId.value && FromBinding(r.value, b, info.traits)
    ensures var r := ProjectionPredicate(info, selfId, d);
            info.bindings == [] && r.Some? ==> FromAssocDecl(r.value, info)
  {
    var own := if selfId.Some? then BindingsFor(info.bindings, selfId.value) else [];
    var pool := if own != [] then own else info.bindings;
    var r := ProjectionPredicate(info, selfId, d);
    if selfId.Some? && (exists b :: b in info.bindings && b.selfTy == selfId.value) {
      var b :| b in info.bindings && b.selfTy == selfId.value;
      assert b in own;
    }
    if pool != [] {
      var b := pool[d.binding % |pool|];
      assert b in info.bindings;
      assert FromBinding(r.value, b, info.traits);
    } else if r.Some? {
      var ta := info.traitAssocTypes[d.assoc % |info.traitAssocTypes|];
      var tys := ImplementorsOf(info.implEdges, ta.0);
      var ty := tys[d.implTy % |tys|];
      assert r.value == ConstraintInjection.ProjPred(ty, ta.0, ta.1, ChooseTrait(info.traits, [ta.0], d.pick));
      assert ta in info.traitAssocTypes && (ty, ta.0) in info.implEdges;
    }
  }

  /** Every predicate the chooser returns has one of the origins above;
      it returns none only for an impl without type parameters or an
      identifier self type, in a file without impl edges or types; and
      without the projection coin, an impl with type parameters always
      gets a bound on one of them. */
  lemma ImplWherePredicateOrigin(info: TtdnInfo, g: Generics, selfTy: Ty, d: Draws)
    ensures var r := ImplWherePredicate(info, g, selfTy, d);
            r.Some? ==> ImplPredicateOrigin(r.value, info, g, selfTy)
    ensures var r := ImplWherePredicate(info, g, selfTy, d);
            r.None? ==> TypeParamNames(g.params) == [] && TyIdent(selfTy).None? && info.implEdges == [] && info.types == []
    ensures var r := ImplWherePredicate(info, g, selfTy, d);
            !d.projection && TypeParamNames(g.params) != [] ==> r.Some? && FromParam(r.value, g, info.traits)
    ensures var r := ImplWherePredicate(info, g, selfTy, d);
            d.projection && info.bindings != [] ==> r.Some? && exists b :: b in info.bindings && FromBinding(r.value, b, info.traits)
  {
    var selfId := TyIdent(selfTy);
    var proj := ProjectionPredicate(info, selfId, d);
    var local := TypeParamNames(g.params);
    var r := ImplWherePredicate(info, g, selfTy, d);
    ProjectionPredicateOrigin(info, selfId, d);
    if d.projection && proj.Some? {
      assert r == proj;
      if info.bindings == [] {
        assert FromAssocDecl(r.value, info);
      }
    } else if local != [] {
      var tp := local[d.param % |local|];
      assert r.value == ConstraintInjection.EdgePred(tp, ChooseTrait(info.traits, [], d.pick));
      assert FromParam(r.value, g, info.traits);
    } else {
      var unrelated := EdgesAvoiding(info.implEdges, selfId);
      if d.unrelated && unrelated != [] {
        var e := unrelated[d.edge % |unrelated|];
        assert e in info.implEdges;
        assert ConstraintInjection.EdgeCandidate(r.value, info.implEdges);
      } else {
        GenericsPredicateOrigin(info, g, selfTy, d);
      }
    }
  }

  /** The generics step of the chooser, called with no local type
      parameter and nothing excluded. */
  lemma GenericsPredicateOrigin(info: TtdnInfo, g: Generics, selfTy: Ty, d: Draws)
    requires TypeParamNames(g.params) == []
    ensures var r := GenericsPredicate(info, g, TyIdent(selfTy), [], d);
            r.Some? ==> ImplPredicateOrigin(r.value, info, g, selfTy)
    ensures var r := GenericsPredicate(info, g, TyIdent(selfTy), [], d);
            r.None? ==> TyIdent(selfTy).None? && info.implEdges == [] && info.types == []
  {
    var selfId := TyIdent(selfTy);
    var r := GenericsPredicate(info, g, selfId, [], d);
    if selfId.Some? {
      var matching := TraitsOf(info.implEdges, selfId.value);
      if matching != [] {
        var tr := matching[d.edge % |matching|];
        assert r.value == ConstraintInjection.EdgePred(selfId.value, tr);
        assert FromSelf(r.value, selfTy, info);
      } else {
        assert FromSelf(r.value, selfTy, info);
      }
    } else if info.implEdges != [] {
      var e := info.implEdges[d.edge % |info.implEdges|];
      assert r.value == ConstraintInjection.EdgePred(e.0, e.1);
      assert ConstraintInjection.EdgeCandidate(r.value, info.implEdges);
    } else if info.types != [] {
      assert FromFirstType(r.value, info);
    }
  }

  // ---------------------------------------------------------------------
  // One site

  /** `has_bound`/`has_supertrait` before the push: the bound list gains
      the trait at its end when it lacks it, and never a second copy. */
  function InjectBounds(bounds: seq<Bound>, tr: string): (r: seq<Bound>)
    ensures HasBound(r, tr)
    ensures |r| >= |bounds| && r[..|bounds|] == bounds
    ensures r != bounds <==> !HasBound(bounds, tr)
    ensures ConstraintInjection.Distinct(bounds) ==> ConstraintInjection.Distinct(r)
  {
    if HasBound(bounds, tr) then bounds
    else
      var r := bounds + [TraitBound(tr)];
      assert r[..|bounds|] == bounds;
      r
  }

  /** `has_where_predicate` before the push: the where clause gains the
      chosen predicate at its end when it lacks it. */
  function InjectWhere(g: Generics, p: Option<WherePred>): (r: Generics)
    ensures r.params == g.params
    ensures |r.preds| >= |g.preds| && r.preds[..|g.preds|] == g.preds
    ensures p.Some? ==> p.value in r.preds
    ensures r != g <==> p.Some? && p.value !in g.preds
    ensures ConstraintInjection.Distinct(g.preds) ==> ConstraintInjection.Distinct(r.preds)
  {
    if p.Some? && p.value !in g.preds then
      var r := g.(preds := g.preds + [p.value]);
      assert r.preds[..|g.preds|] == g.preds;
      assert |r.preds| == |g.preds| + 1;
      r
    else g
  }

  /** The random choices of one injection, fixed: the trait drawn for a
      bound site given the traits it excludes, and the where-predicate
      chosen for an impl's generics and self type. */
  datatype Plan = Plan(traitFor: seq<string> -> string, whereFor: (Generics, Ty) -> Option<WherePred>)

  /** The choices `choose_trait_prefer_custom` and
      `choose_impl_where_predicate` make for the draws `d`. */
  function PlanOf(info: TtdnInfo, d: Draws): (pl: Plan)
    ensures forall excluded :: Admissible(pl.traitFor(excluded), info.traits, excluded)
  {
    Plan(excluded => ChooseTrait(info.traits, excluded, d.pick), (g, selfTy) => ImplWherePredicate(info, g, selfTy, d))
  }

  /** Whether the injection at site `s` pushes something: the drawn trait
      (for a supertrait, one other than the trait itself) is not yet among
      the site's bounds, or the chosen where-predicate exists and is not
      yet in the impl's where clause. */
  predicate SiteTakes(s: Site, pl: Plan) {
    match s
    case SupertraitSite(n, sup) => !HasBound(sup, pl.traitFor([n]))
    case WhereSite(g, selfTy) =>
      var p := pl.whereFor(g, selfTy);
      p.Some? && p.value !in g.preds
    case GenericSite(_, b) => !HasBound(b, pl.traitFor([]))
    case AssocBoundSite(_, b) => !HasBound(b, pl.traitFor([]))
  }

  // ---------------------------------------------------------------------
  // The edit, with the target `l` sites ahead

  function InjectParam(p: GenericParam, l: int, pl: Plan): GenericParam {
    if p.TypeParam? && l == 0 then TypeParam(p.name, InjectBounds(p.bounds, pl.traitFor([]))) else p
  }

  function InjectParams(ps: seq<GenericParam>, l: int, pl: Plan): (r: seq<GenericParam>)
    ensures |r| == |ps|
  {
    if l < 0 || l >= |ParamSites(ps)| then ps
    else [InjectParam(ps[0], l, pl)] + InjectParams(ps[1..], l - |ParamSite(ps[0])|, pl)
  }

  function InjectGenerics(g: Generics, l: int, pl: Plan): Generics {
    g.(params := InjectParams(g.params, l, pl))
  }

  /** An associated type is one site and its own parameters are not
      visited; a method's sites are its type parameters. */
  function InjectTraitMember(m: TraitMember, l: int, pl: Plan): TraitMember {
    match m
    case AssocType(n, g, b, def) => if l == 0 then AssocType(n, g, InjectBounds(b, pl.traitFor([])), def) else m
    case Method(sig, body) => Method(sig.(generics := InjectGenerics(sig.generics, l, pl)), body)
    case _ => m
  }

  function InjectTraitMembers(ms: seq<TraitMember>, l: int, pl: Plan): (r: seq<TraitMember>)
    ensures |r| == |ms|
  {
    if l < 0 || l >= |FlatMap(ms, TraitMemberSites)| then ms
    else [InjectTraitMember(ms[0], l, pl)] + InjectTraitMembers(ms[1..], l - |TraitMemberSites(ms[0])|, pl)
  }

  function InjectImplMember(m: ImplMember, l: int, pl: Plan): ImplMember {
    match m
    case AssocTypeDef(n, g, ty) => AssocTypeDef(n, InjectGenerics(g, l, pl), ty)
    case MethodDef(sig, body) => MethodDef(sig.(generics := InjectGenerics(sig.generics, l, pl)), body)
    case _ => m
  }

  function InjectImplMembers(ms: seq<ImplMember>, l: int, pl: Plan): (r: seq<ImplMember>)
    ensures |r| == |ms|
  {
    if l < 0 || l >= |FlatMap(ms, ImplMemberSites)| then ms
    else [InjectImplMember(ms[0], l, pl)] + InjectImplMembers(ms[1..], l - |ImplMemberSites(ms[0])|, pl)
  }

  /** A trait is its supertrait site, then its parameters and members; an
      impl its where site, then its parameters and members. */
  function InjectItem(it: Item, l: int, pl: Plan): Item {
    match it
    case TraitDef(n, g, sup, ms) =>
      if l == 0 then TraitDef(n, g, InjectBounds(sup, pl.traitFor([n])), ms)
      else TraitDef(n, InjectGenerics(g, l - 1, pl), sup, InjectTraitMembers(ms, l - 1 - |ParamSites(g.params)|, pl))
    case ImplDef(g, tr, selfTy, ms) =>
      if l == 0 then ImplDef(InjectWhere(g, pl.whereFor(g, selfTy)), tr, selfTy, ms)
      else ImplDef(InjectGenerics(g, l - 1, pl), tr, selfTy, InjectImplMembers(ms, l - 1 - |ParamSites(g.params)|, pl))
    case StructDef(n, g, fs) => StructDef(n, InjectGenerics(g, l, pl), fs)
    case EnumDef(n, g, fs) => EnumDef(n, InjectGenerics(g, l, pl), fs)
    case FnDef(sig, body) => FnDef(sig.(generics := InjectGenerics(sig.generics, l, pl)), body)
    case OtherItem(_) => it
  }

  /** The whole edit of the file, `index` sites ahead at the start. */
  function InjectItems(items: seq<Item>, l: int, pl: Plan): (r: seq<Item>)
    ensures |r| == |items|
  {
    if l < 0 || l >= |ConstraintSites(items)| then items
    else [InjectItem(items[0], l, pl)] + InjectItems(items[1..], l - |ItemSites(items[0])|, pl)
  }

  // ---------------------------------------------------------------------
  // Which edits change the file

  lemma ConsSplit<T>(s: seq<T>)
    requires s != []
    ensures [s[0]] + s[1..] == s
  {
  }

  /** A cons differs from `s` exactly when its head or its tail does. */
  lemma ConsIff<T>(h: T, t: seq<T>, s: seq<T>)
    requires s != []
    ensures [h] + t != s <==> h != s[0] || t != s[1..]
  {
    if h != s[0] || t != s[1..] {
      ProjectionRewrite.ConsDiffers(h, t, s);
    } else {
      ConsSplit(s);
    }
  }

  lemma ParamChangedIff(p: GenericParam, l: int, pl: Plan)
    ensures InjectParam(p, l, pl) != p <==> 0 <= l < |ParamSite(p)| && SiteTakes(ParamSite(p)[l], pl)
  {
  }

  lemma {:induction false} ParamsChangedIff(ps: seq<GenericParam>, l: int, pl: Plan)
    ensures InjectParams(ps, l, pl) != ps <==> 0 <= l < |ParamSites(ps)| && SiteTakes(ParamSites(ps)[l], pl)
  {
    if ps != [] && 0 <= l < |ParamSites(ps)| {
      var sites := ParamSites(ps);
      var n := |ParamSite(ps[0])|;
      var h, t := InjectParam(ps[0], l, pl), InjectParams(ps[1..], l - n, pl);
      assert InjectParams(ps, l, pl) == [h] + t;
      assert (h != ps[0]) == (l < n && SiteTakes(sites[l], pl)) by {
        FlatMapCons(ps, ParamSite);
        ParamChangedIff(ps[0], l, pl);
        if l < n {
          assert sites[l] == ParamSite(ps[0])[l];
        }
      }
      assert (t != ps[1..]) == (n <= l && SiteTakes(sites[l], pl)) by {
        FlatMapCons(ps, ParamSite);
        ParamsChangedIff(ps[1..], l - n, pl);
        if n <= l {
          assert sites[l] == ParamSites(ps[1..])[l - n];
        } else {
          assert t == ps[1..];
        }
      }
      ConsIff(h, t, ps);
    }
  }

  lemma GenericsChangedIff(g: Generics, l: int, pl: Plan)
    ensures InjectGenerics(g, l, pl) != g <==> 0 <= l < |ParamSites(g.params)| && SiteTakes(ParamSites(g.params)[l], pl)
  {
    ParamsChangedIff(g.params, l, pl);
  }

  lemma TraitMemberChangedIff(m: TraitMember, l: int, pl: Plan)
    ensures InjectTraitMember(m, l, pl) != m <==> 0 <= l < |TraitMemberSites(m)| && SiteTakes(TraitMemberSites(m)[l], pl)
  {
    if m.Method? {
      GenericsChangedIff(m.sig.generics, l, pl);
    }
  }

  lemma {:induction false} TraitMembersChangedIff(ms: seq<TraitMember>, l: int, pl: Plan)
    ensures InjectTraitMembers(ms, l, pl) != ms <==> 0 <= l < |FlatMap(ms, TraitMemberSites)| && SiteTakes(FlatMap(ms, TraitMemberSites)[l], pl)
  {
    if ms != [] && 0 <= l < |FlatMap(ms, TraitMemberSites)| {
      var sites := FlatMap(ms, TraitMemberSites);
      var n := |TraitMemberSites(ms[0])|;
      var h, t := InjectTraitMember(ms[0], l, pl), InjectTraitMembers(ms[1..], l - n, pl);
      assert InjectTraitMembers(ms, l, pl) == [h] + t;
      assert (h != ms[0]) == (l < n && SiteTakes(sites[l], pl)) by {
        FlatMapCons(ms, TraitMemberSites);
        TraitMemberChangedIff(ms[0], l, pl);
        if l < n {
          assert sites[l] == TraitMemberSites(ms[0])[l];
        }
      }
      assert (t != ms[1..]) == (n <= l && SiteTakes(sites[l], pl)) by {
        FlatMapCons(ms, TraitMemberSites);
        TraitMembersChangedIff(ms[1..], l - n, pl);
        if n <= l {
          assert sites[l] == FlatMap(ms[1..], TraitMemberSites)[l - n];
        } else {
          assert t == ms[1..];
        }
      }
      ConsIff(h, t, ms);
    }
  }

  lemma ImplMemberChangedIff(m: ImplMember, l: int, pl: Plan)
    ensures InjectImplMember(m, l, pl) != m <==> 0 <= l < |ImplMemberSites(m)| && SiteTakes(ImplMemberSites(m)[l], pl)
  {
    match m
    case AssocTypeDef(n, g, ty) =>
      GenericsChangedIff(g, l, pl);
    case MethodDef(sig, body) =>
      GenericsChangedIff(sig.generics, l, pl);
    case _ =>
  }

  lemma {:induction false} ImplMembersChangedIff(ms: seq<ImplMember>, l: int, pl: Plan)
    ensures InjectImplMembers(ms, l, pl) != ms <==> 0 <= l < |FlatMap(ms, ImplMemberSites)| && SiteTakes(FlatMap(ms, ImplMemberSites)[l], pl)
  {
    if ms != [] && 0 <= l < |FlatMap(ms, ImplMemberSites)| {
      var sites := FlatMap(ms, ImplMemberSites);
      var n := |ImplMemberSites(ms[0])|;
      var h, t := InjectImplMember(ms[0], l, pl), InjectImplMembers(ms[1..], l - n, pl);
      assert InjectImplMembers(ms, l, pl) == [h] + t;
      assert (h != ms[0]) == (l < n && SiteTakes(sites[l], pl)) by {
        FlatMapCons(ms, ImplMemberSites);
        ImplMemberChangedIff(ms[0], l, pl);
        if l < n {
          assert sites[l] == ImplMemberSites(ms[0])[l];
        }
      }
      assert (t != ms[1..]) == (n <= l && SiteTakes(sites[l], pl)) by {
        FlatMapCons(ms, ImplMemberSites);
        ImplMembersChangedIff(ms[1..], l - n, pl);
        if n <= l {
          assert sites[l] == FlatMap(ms[1..], ImplMemberSites)[l - n];
        } else {
          assert t == ms[1..];
        }
      }
      ConsIff(h, t, ms);
    }
  }

  lemma TraitChangedIff(n: string, g: Generics, sup: seq<Bound>, ms: seq<TraitMember>, l: int, pl: Plan)
    ensures var it := TraitDef(n, g, sup, ms);
            InjectItem(it, l, pl) != it <==> 0 <= l < |ItemSites(it)| && SiteTakes(ItemSites(it)[l], pl)
  {
    if l != 0 {
      var it := TraitDef(n, g, sup, ms);
      var p := |ParamSites(g.params)|;
      var members := FlatMap(ms, TraitMemberSites);
      assert ItemSites(it) == [SupertraitSite(n, sup)] + ParamSites(g.params) + members;
      GenericsChangedIff(g, l - 1, pl);
      TraitMembersChangedIff(ms, l - 1 - p, pl);
      if 0 < l <= p {
        assert ItemSites(it)[l] == ParamSites(g.params)[l - 1];
      } else if p < l < |ItemSites(it)| {
        assert ItemSites(it)[l] == members[l - 1 - p];
      }
    }
  }

  lemma ImplChangedIff(g: Generics, tr: Option<TraitRef>, selfTy: Ty, ms: seq<ImplMember>, l: int, pl: Plan)
    ensures var it := ImplDef(g, tr, selfTy, ms);
            InjectItem(it, l, pl) != it <==> 0 <= l < |ItemSites(it)| && SiteTakes(ItemSites(it)[l], pl)
  {
    if l != 0 {
      var it := ImplDef(g, tr, selfTy, ms);
      var p := |ParamSites(g.params)|;
      var members := FlatMap(ms, ImplMemberSites);
      assert ItemSites(it) == [WhereSite(g, selfTy)] + ParamSites(g.params) + members;
      GenericsChangedIff(g, l - 1, pl);
      ImplMembersChangedIff(ms, l - 1 - p, pl);
      if 0 < l <= p {
        assert ItemSites(it)[l] == ParamSites(g.params)[l - 1];
      } else if p < l < |ItemSites(it)| {
        assert ItemSites(it)[l] == members[l - 1 - p];
      }
    }
  }

  lemma ItemChangedIff(it: Item, l: int, pl: Plan)
    ensures InjectItem(it, l, pl) != it <==> 0 <= l < |ItemSites(it)| && SiteTakes(ItemSites(it)[l], pl)
  {
    match it
    case TraitDef(n, g, sup, ms) =>
      TraitChangedIff(n, g, sup, ms, l, pl);
    case ImplDef(g, tr, selfTy, ms) =>
      ImplChangedIff(g, tr, selfTy, ms, l, pl);
    case StructDef(_, g, _) =>
      GenericsChangedIff(g, l, pl);
    case EnumDef(_, g, _) =>
      GenericsChangedIff(g, l, pl);
    case FnDef(sig, _) =>
      GenericsChangedIff(sig.generics, l, pl);
    case OtherItem(_) =>
  }

  /** The file changes exactly when the offset names one of its sites, in
      the TTDN site order, and that site takes the drawn constraint. */
  lemma {:induction false} ItemsChangedIff(items: seq<Item>, l: int, pl: Plan)
    ensures InjectItems(items, l, pl) != items <==> 0 <= l < |ConstraintSites(items)| && SiteTakes(ConstraintSites(items)[l], pl)
  {
    if items != [] && 0 <= l < |ConstraintSites(items)| {
      var sites := ConstraintSites(items);
      var n := |ItemSites(items[0])|;
      var h, t := InjectItem(items[0], l, pl), InjectItems(items[1..], l - n, pl);
      assert InjectItems(items, l, pl) == [h] + t;
      assert (h != items[0]) == (l < n && SiteTakes(sites[l], pl)) by {
        FlatMapCons(items, ItemSites);
        ItemChangedIff(items[0], l, pl);
        if l < n {
          assert sites[l] == ItemSites(items[0])[l];
        }
      }
      assert (t != items[1..]) == (n <= l && SiteTakes(sites[l], pl)) by {
        FlatMapCons(items, ItemSites);
        ItemsChangedIff(items[1..], l - n, pl);
        if n <= l {
          assert sites[l] == ConstraintSites(items[1..])[l - n];
        } else {
          assert t == items[1..];
        }
      }
      ConsIff(h, t, items);
    }
  }

  // ---------------------------------------------------------------------
  // The edit, one part at a time

  lemma {:induction false} ParamsAt(ps: seq<GenericParam>, l: int, pl: Plan)
    requires ps != []
    ensures ParamSites(ps) == ParamSite(ps[0]) + ParamSites(ps[1..])
    ensures InjectParams(ps, l, pl) == [InjectParam(ps[0], l, pl)] + InjectParams(ps[1..], l - |ParamSite(ps[0])|, pl)
  {
    FlatMapCons(ps, ParamSite);
    if l < 0 || l >= |ParamSites(ps)| {
      var h, t := InjectParam(ps[0], l, pl), InjectParams(ps[1..], l - |ParamSite(ps[0])|, pl);
      assert h == ps[0] && t == ps[1..];
      ConsSplit(ps);
    }
  }

  lemma {:induction false} TraitMembersAt(ms: seq<TraitMember>, l: int, pl: Plan)
    requires ms != []
    ensures FlatMap(ms, TraitMemberSites) == TraitMemberSites(ms[0]) + FlatMap(ms[1..], TraitMemberSites)
    ensures InjectTraitMembers(ms, l, pl) == [InjectTraitMember(ms[0], l, pl)] + InjectTraitMembers(ms[1..], l - |TraitMemberSites(ms[0])|, pl)
  {
    FlatMapCons(ms, TraitMemberSites);
    if l < 0 || l >= |FlatMap(ms, TraitMemberSites)| {
      var n := |TraitMemberSites(ms[0])|;
      TraitMemberChangedIff(ms[0], l, pl);
      var h, t := InjectTraitMember(ms[0], l, pl), InjectTraitMembers(ms[1..], l - n, pl);
      assert h == ms[0] && t == ms[1..];
      ConsSplit(ms);
    }
  }

  lemma {:induction false} ImplMembersAt(ms: seq<ImplMember>, l: int, pl: Plan)
    requires ms != []
    ensures FlatMap(ms, ImplMemberSites) == ImplMemberSites(ms[0]) + FlatMap(ms[1..], ImplMemberSites)
    ensures InjectImplMembers(ms, l, pl) == [InjectImplMember(ms[0], l, pl)] + InjectImplMembers(ms[1..], l - |ImplMemberSites(ms[0])|, pl)
  {
    FlatMapCons(ms, ImplMemberSites);
    if l < 0 || l >= |FlatMap(ms, ImplMemberSites)| {
      var n := |ImplMemberSites(ms[0])|;
      ImplMemberChangedIff(ms[0], l, pl);
      var h, t := InjectImplMember(ms[0], l, pl), InjectImplMembers(ms[1..], l - n, pl);
      assert h == ms[0] && t == ms[1..];
      ConsSplit(ms);
    }
  }

  lemma {:induction false} ItemsAt(items: seq<Item>, l: int, pl: Plan)
    requires items != []
    ensures ConstraintSites(items) == ItemSites(items[0]) + ConstraintSites(items[1..])
    ensures InjectItems(items, l, pl) == [InjectItem(items[0], l, pl)] + InjectItems(items[1..], l - |ItemSites(items[0])|, pl)
  {
    FlatMapCons(items, ItemSites);
    if l < 0 || l >= |ConstraintSites(items)| {
      var n := |ItemSites(items[0])|;
      ItemChangedIff(items[0], l, pl);
      var h, t := InjectItem(items[0], l, pl), InjectItems(items[1..], l - n, pl);
      assert h == items[0] && t == items[1..];
      ConsSplit(items);
    }
  }

  // ---------------------------------------------------------------------
  // The collector

  /** `ConstraintInjectionCollector`: one count per trait, impl, type
      parameter and trait associated type, in visiting order. */
  class Collector {
    var count: nat

    constructor ()
      ensures count == 0
    {
      count := 0;
    }

    method VisitParams(ps: seq<GenericParam>)
      modifies this
      ensures count == old(count) + |ParamSites(ps)|
    {
      if ps != [] {
        FlatMapCons(ps, ParamSite);
        if ps[0].TypeParam? {
          count := count + 1;
        }
        VisitParams(ps[1..]);
      }
    }

    method VisitTraitMembers(ms: seq<TraitMember>)
      modifies this
      ensures count == old(count) + |FlatMap(ms, TraitMemberSites)|
    {
      if ms != [] {
        FlatMapCons(ms, TraitMemberSites);
        match ms[0] {
          case AssocType(_, _, _, _) =>
            count := count + 1;
          case Method(sig, _) =>
            VisitParams(sig.generics.params);
          case _ =>
        }
        VisitTraitMembers(ms[1..]);
      }
    }

    method VisitImplMembers(ms: seq<ImplMember>)
      modifies this
      ensures count == old(count) + |FlatMap(ms, ImplMemberSites)|
    {
      if ms != [] {
        FlatMapCons(ms, ImplMemberSites);
        match ms[0] {
          case AssocTypeDef(_, g, _) =>
            VisitParams(g.params);
          case MethodDef(sig, _) =>
            VisitParams(sig.generics.params);
          case _ =>
        }
        VisitImplMembers(ms[1..]);
      }
    }

    method VisitItem(it: Item)
      modifies this
      ensures count == old(count) + |ItemSites(it)|
    {
      match it {
        case TraitDef(_, g, _, ms) =>
          count := count + 1;
          VisitParams(g.params);
          VisitTraitMembers(ms);
        case ImplDef(g, _, _, ms) =>
          count := count + 1;
          VisitParams(g.params);
          VisitImplMembers(ms);
        case StructDef(_, g, _) =>
          VisitParams(g.params);
        case EnumDef(_, g, _) =>
          VisitParams(g.params);
        case FnDef(sig, _) =>
          VisitParams(sig.generics.params);
        case OtherItem(_) =>
      }
    }

    /** `visit_file`. */
    method VisitItems(items: seq<Item>)
      modifies this
      ensures count == old(count) + |ConstraintSites(items)|
    {
      if items != [] {
        FlatMapCons(items, ItemSites);
        VisitItem(items[0]);
        VisitItems(items[1..]);
      }
    }
  }

  /** `collect`: the length of the TTDN constraint-site list. */
  method CollectSites(file: File) returns (count: nat)
    ensures count == |ConstraintSites(file)|
  {
    var c := new Collector();
    c.VisitItems(file);
    count := c.count;
  }

  // ---------------------------------------------------------------------
  // The applier

  /** `ConstraintInjectionApplier`: it walks the file in the collector's
      order, counts the sites it passes, and at the target pushes the
      drawn constraint when the site lacks it. */
  class Applier {
    const target: nat
    const plan: Plan
    var current: nat
    var mutated: bool

    constructor (target: nat, plan: Plan)
      ensures this.target == target && this.plan == plan
      ensures current == 0 && !mutated
    {
      this.target := target;
      this.plan := plan;
      current := 0;
      mutated := false;
    }

    /** The push at a bound site (`visit_generic_param_mut`,
        `visit_trait_item_type_mut`, the supertraits of
        `visit_item_trait_mut`). */
    method PushBound(bounds: seq<Bound>, excluded: seq<string>) returns (r: seq<Bound>)
      modifies this
      ensures r == if old(current) == target then InjectBounds(bounds, plan.traitFor(excluded)) else bounds
      ensures current == old(current) + 1
      ensures mutated == (old(mutated) || r != bounds)
    {
      r := bounds;
      if current == target {
        var tr := plan.traitFor(excluded);
        if !HasBound(bounds, tr) {
          r := bounds + [TraitBound(tr)];
          assert |r| == |bounds| + 1;
          mutated := true;
        }
      }
      current := current + 1;
    }

    method VisitParams(ps: seq<GenericParam>) returns (r: seq<GenericParam>)
      modifies this
      ensures r == InjectParams(ps, target - old(current), plan)
      ensures current == old(current) + |ParamSites(ps)|
      ensures mutated == (old(mutated) || r != ps)
    {
      if ps == [] {
        return [];
      }
      ParamsAt(ps, target - current, plan);
      var h := ps[0];
      if h.TypeParam? {
        var b := PushBound(h.bounds, []);
        h := TypeParam(h.name, b);
      }
      var t := VisitParams(ps[1..]);
      r := [h] + t;
      ConsIff(h, t, ps);
    }

    method VisitGenerics(g: Generics) returns (r: Generics)
      modifies this
      ensures r == InjectGenerics(g, target - old(current), plan)
      ensures current == old(current) + |ParamSites(g.params)|
      ensures mutated == (old(mutated) || r != g)
    {
      var ps := VisitParams(g.params);
      r := g.(params := ps);
    }

    method VisitTraitMember(m: TraitMember) returns (r: TraitMember)
      modifies this
      ensures r == InjectTraitMember(m, target - old(current), plan)
      ensures current == old(current) + |TraitMemberSites(m)|
      ensures mutated == (old(mutated) || r != m)
    {
      match m
      case AssocType(n, g, b, def) =>
        var rb := PushBound(b, []);
        r := AssocType(n, g, rb, def);
      case Method(sig, body) =>
        var rg := VisitGenerics(sig.generics);
        r := Method(sig.(generics := rg), body);
      case _ =>
        r := m;
    }

    method VisitTraitMembers(ms: seq<TraitMember>) returns (r: seq<TraitMember>)
      modifies this
      ensures r == InjectTraitMembers(ms, target - old(current), plan)
      ensures current == old(current) + |FlatMap(ms, TraitMemberSites)|
      ensures mutated == (old(mutated) || r != ms)
    {
      if ms == [] {
        return [];
      }
      TraitMembersAt(ms, target - current, plan);
      var h := VisitTraitMember(ms[0]);
      var t := VisitTraitMembers(ms[1..]);
      r := [h] + t;
      ConsIff(h, t, ms);
    }

    method VisitImplMember(m: ImplMember) returns (r: ImplMember)
      modifies this
      ensures r == InjectImplMember(m, target - old(current), plan)
      ensures current == old(current) + |ImplMemberSites(m)|
      ensures mutated == (old(mutated) || r != m)
    {
      match m
      case AssocTypeDef(n, g, ty) =>
        var rg := VisitGenerics(g);
        r := AssocTypeDef(n, rg, ty);
      case MethodDef(sig, body) =>
        var rg := VisitGenerics(sig.generics);
        r := MethodDef(sig.(generics := rg), body);
      case _ =>
        r := m;
    }

    method VisitImplMembers(ms: seq<ImplMember>) returns (r: seq<ImplMember>)
      modifies this
      ensures r == InjectImplMembers(ms, target - old(current), plan)
      ensures current == old(current) + |FlatMap(ms, ImplMemberSites)|
      ensures mutated == (old(mutated) || r != ms)
    {
      if ms == [] {
        return [];
      }
      ImplMembersAt(ms, target - current, plan);
      var h := VisitImplMember(ms[0]);
      var t := VisitImplMembers(ms[1..]);
      r := [h] + t;
      ConsIff(h, t, ms);
    }

    /** `visit_item_trait_mut`: the supertrait site (the trait's own name
        excluded from the draw), then the parameters and the members. */
    method VisitTrait(n: string, g: Generics, sup: seq<Bound>, ms: seq<TraitMember>) returns (r: Item)
      modifies this
      ensures r == InjectItem(TraitDef(n, g, sup, ms), target - old(current), plan)
      ensures current == old(current) + |ItemSites(TraitDef(n, g, sup, ms))|
      ensures mutated == (old(mutated) || r != TraitDef(n, g, sup, ms))
    {
      var rsup := PushBound(sup, [n]);
      var rg := VisitGenerics(g);
      var rms := VisitTraitMembers(ms);
      r := TraitDef(n, rg, rsup, rms);
    }

    /** `visit_item_impl_mut`: the where site, then the parameters and the
        members. */
    method VisitImpl(g: Generics, tr: Option<TraitRef>, selfTy: Ty, ms: seq<ImplMember>) returns (r: Item)
      modifies this
      ensures r == InjectItem(ImplDef(g, tr, selfTy, ms), target - old(current), plan)
      ensures current == old(current) + |ItemSites(ImplDef(g, tr, selfTy, ms))|
      ensures mutated == (old(mutated) || r != ImplDef(g, tr, selfTy, ms))
    {
      var g' := g;
      if current == target {
        var p := plan.whereFor(g, selfTy);
        if p.Some? && p.value !in g.preds {
          g' := g.(preds := g.preds + [p.value]);
          assert |g'.preds| == |g.preds| + 1;
          mutated := true;
        }
      }
      current := current + 1;
      var rg := VisitGenerics(g');
      var rms := VisitImplMembers(ms);
      r := ImplDef(rg, tr, selfTy, rms);
    }

    method VisitItem(it: Item) returns (r: Item)
      modifies this
      ensures r == InjectItem(it, target - old(current), plan)
      ensures current == old(current) + |ItemSites(it)|
      ensures mutated == (old(mutated) || r != it)
    {
      match it
      case TraitDef(n, g, sup, ms) =>
        r := VisitTrait(n, g, sup, ms);
      case ImplDef(g, tr, selfTy, ms) =>
        r := VisitImpl(g, tr, selfTy, ms);
      case StructDef(n, g, fs) =>
        var rg := VisitGenerics(g);
        r := StructDef(n, rg, fs);
      case EnumDef(n, g, fs) =>
        var rg := VisitGenerics(g);
        r := EnumDef(n, rg, fs);
      case FnDef(sig, body) =>
        var rg := VisitGenerics(sig.generics);
        r := FnDef(sig.(generics := rg), body);
      case OtherItem(_) =>
        r := it;
    }

    /** `visit_file_mut`. */
    method VisitItems(items: seq<Item>) returns (r: seq<Item>)
      modifies this
      ensures r == InjectItems(items, target - old(current), plan)
      ensures current == old(current) + |ConstraintSites(items)|
      ensures mutated == (old(mutated) || r != items)
    {
      if items == [] {
        return [];
      }
      ItemsAt(items, target - current, plan);
      var h := VisitItem(items[0]);
      var t := VisitItems(items[1..]);
      r := [h] + t;
      ConsIff(h, t, items);
    }
  }

  /** `ConstraintInjectionMutator::mutate` for the draws `draws`: the
      applier's walk over the file with the TTDN the mutator builds. It
      reports a mutation exactly when the file changed, which is exactly
      when `index` names a site that lacks the drawn constraint. */
  method Mutate(file: File, index: nat, draws: Draws) returns (r: Outcome, ghost info: TtdnInfo)
    ensures forall n :: n in info.traits <==> n in RawInfo(file).traits
    ensures forall n :: n in info.types <==> n in RawInfo(file).types
    ensures forall p :: p in info.implEdges <==> p in RawInfo(file).implEdges
    ensures forall p :: p in info.traitAssocTypes <==> p in RawInfo(file).traitAssocTypes
    ensures forall b :: b in info.bindings ==> b in RawInfo(file).bindings
    ensures r.file == InjectItems(file, index, PlanOf(info, draws))
    ensures r.mutated <==> r.file != file
    ensures r.mutated <==> index < |ConstraintSites(file)| && SiteTakes(ConstraintSites(file)[index], PlanOf(info, draws))
  {
    var ttdn := FromFile(file);
    info := ttdn;
    var a := new Applier(index, PlanOf(ttdn, draws));
    var f := a.VisitItems(file);
    r := Outcome(f, a.mutated);
    ItemsChangedIff(file, index, PlanOf(ttdn, draws));
  }
}
