/** The constraint-injection applier: a visitor that walks the file in the
    collectors' site order, keeps a running site counter, and at the
    target site pushes one candidate constraint in place. Each visit
    method is proved against the injection function `InjectFile` of the
    file (and its parts), whose one-site property is proved in
    `ConstraintInjection`. */
module ConstraintApplier {
  import opened Wrappers
  import opened Syntax
  import opened Flatten
  import opened Ttdn
  import opened ConstraintInjection

  // ---------------------------------------------------------------------
  // The applier's site order as written

  /** As written, `visit_trait_item_type_mut` goes on into the associated
      type (`visit_mut::visit_trait_item_type_mut`), so the type parameters
      of a generic associated type advance the applier's counter, while the
      collectors' `visit_trait_item_type` stops at the associated type. */
  function AsWrittenTraitMemberSites(m: TraitMember): seq<Site> {
    match m
    case AssocType(n, g, b, _) => [AssocBoundSite(n, b)] + ParamSites(g.params)
    case _ => TraitMemberSites(m)
  }

  function AsWrittenItemSites(it: Item): seq<Site> {
    match it
    case TraitDef(n, g, sup, ms) => [SupertraitSite(n, sup)] + ParamSites(g.params) + FlatMap(ms, AsWrittenTraitMemberSites)
    case _ => ItemSites(it)
  }

  /** The sites the applier as written counts, in its visiting order. */
  function AsWrittenApplierSites(file: File): seq<Site> {
    FlatMap(file, AsWrittenItemSites)
  }

  /** `trait Tr { type A<T>; type B; }`: the collectors list three sites
      and number `B`'s associated-type site 2, but the applier as written
      meets the GAT parameter `T` at counter 2, so a choice aimed at `B`
      lands on `T` instead, and `B` is never reachable under its index. */
  lemma GatParamShiftsApplierCounter()
    ensures var file := [TraitDef("Tr", NoGenerics, [], [
                AssocType("A", Generics([TypeParam("T", [])], []), [], None),
                AssocType("B", NoGenerics, [], None)])];
            |ConstraintSites(file)| == 3 && |AsWrittenApplierSites(file)| == 4 &&
            ConstraintSites(file)[2] == AssocBoundSite("B", []) &&
            AsWrittenApplierSites(file)[2] == GenericSite("T", [])
  {
    var a := AssocType("A", Generics([TypeParam("T", [])], []), [], None);
    var b := AssocType("B", NoGenerics, [], None);
    var it := TraitDef("Tr", NoGenerics, [], [a, b]);
    assert ParamSites([TypeParam("T", [])]) == [GenericSite("T", [])] by {
      FlatMapCons([TypeParam("T", [])], ParamSite);
    }
    assert ParamSites([]) == [];
    FlatMapCons([a, b], TraitMemberSites);
    FlatMapCons([b], TraitMemberSites);
    FlatMapCons([a, b], AsWrittenTraitMemberSites);
    FlatMapCons([b], AsWrittenTraitMemberSites);
    FlatMapCons([it], ItemSites);
    FlatMapCons([it], AsWrittenItemSites);
    assert ItemSites(it) == [SupertraitSite("Tr", []), AssocBoundSite("A", []), AssocBoundSite("B", [])];
    assert AsWrittenItemSites(it) == [SupertraitSite("Tr", []), AssocBoundSite("A", []), GenericSite("T", []), AssocBoundSite("B", [])];
  }

  // ---------------------------------------------------------------------
  // Out-of-range injections change nothing, whatever the index

  lemma ParamsUntouched(ps: seq<GenericParam>, l: int, traits: seq<string>, idx: nat)
    requires !(0 <= l < |ParamSites(ps)|)
    ensures InjectParams(ps, l, traits, idx) == ps
  {
    ParamsInject(ps, l, traits, idx, None);
  }

  lemma TraitMembersUntouched(ms: seq<TraitMember>, l: int, traits: seq<string>, idx: nat)
    requires !(0 <= l < |FlatMap(ms, TraitMemberSites)|)
    ensures InjectTraitMembers(ms, l, traits, idx) == ms
  {
    TraitMembersInject(ms, l, traits, idx, None);
  }

  lemma ImplMembersUntouched(ms: seq<ImplMember>, l: int, traits: seq<string>, idx: nat)
    requires !(0 <= l < |FlatMap(ms, ImplMemberSites)|)
    ensures InjectImplMembers(ms, l, traits, idx) == ms
  {
    ImplMembersInject(ms, l, traits, idx, None);
  }

  lemma ItemUntouched(it: Item, l: int, traits: seq<string>, idx: nat, wp: Option<WherePred>)
    requires !(0 <= l < |ItemSites(it)|)
    ensures InjectItem(it, l, traits, idx, wp) == it
  {
    ItemInjects(it, l, traits, idx, wp);
  }

  lemma FileUntouched(file: File, l: int, traits: seq<string>, idx: nat, wp: Option<WherePred>)
    requires !(0 <= l < |ConstraintSites(file)|)
    ensures InjectFile(file, l, traits, idx, wp) == file
  {
    InjectFileSites(file, l, traits, idx, wp);
  }

  /** The bound list after a push of candidate `k`, with `k` in range. */
  lemma PushCandidateAt(bounds: seq<Bound>, traits: seq<string>, own: Option<string>, k: nat)
    requires k < |BoundCandidates(traits, bounds, own)|
    ensures PushCandidate(bounds, traits, own, k) == bounds + [BoundCandidates(traits, bounds, own)[k]]
    ensures PushCandidate(bounds, traits, own, k) != bounds
  {
    var cands := BoundCandidates(traits, bounds, own);
    ModBelow(k, |cands|);
    assert |bounds + [cands[k]]| == |bounds| + 1;
  }

  /** A walk that reached the end has visited the whole list. */
  lemma WalkDone<T>(xs: seq<T>, r: seq<T>)
    ensures xs[..|xs|] == xs && ((r == xs[..|xs|]) == (r == xs))
  {
  }

  /** One step of a walk over a list: element `k` becomes `y`, the result
      of the element's own injection at its local index. */
  lemma EachStep<T>(xs: seq<T>, k: nat, l: int, sites: T -> seq<Site>, inj: (T, int) -> T, inj': (T, int) -> T,
                    r: seq<T>, y: T, same: bool)
    requires k < |xs| && r == InjectEach(xs[..k], l, sites, inj)
    requires InjectEach(xs[..k], l, sites, inj) == InjectEach(xs[..k], l, sites, inj')
    requires y == inj'(xs[k], l - |FlatMap(xs[..k], sites)|)
    requires (y == xs[k]) == same
    ensures r + [y] == InjectEach(xs[..k + 1], l, sites, inj')
    ensures (r + [y] == xs[..k + 1]) == (r == xs[..k] && same)
  {
    InjectEachStep(xs, l, sites, inj', k);
    assert xs[..k + 1][..k] == xs[..k];
    SplitLast(xs[..k + 1], r + [y], r, y);
  }

  /** One step of the walk over a parameter list. */
  lemma ParamsStep(ps: seq<GenericParam>, k: nat, l: int, l2: int, traits: seq<string>, c: nat, c': nat,
                   r: seq<GenericParam>, p: GenericParam, pushed: bool)
    requires k < |ps| && r == InjectParams(ps[..k], l, traits, c)
    requires l2 == l - |ParamSites(ps[..k])| && p == InjectParam(ps[k], l2, traits, c')
    requires (p == ps[k]) == !pushed
    requires c' != c ==> l >= |ParamSites(ps[..k])|
    ensures r + [p] == InjectParams(ps[..k + 1], l, traits, c')
    ensures (r + [p] == ps[..k + 1]) == (r == ps[..k] && !pushed)
  {
    if c' != c {
      ParamsUntouched(ps[..k], l, traits, c);
      ParamsUntouched(ps[..k], l, traits, c');
    }
    EachStep(ps, k, l, ParamSite, ParamInjector(traits, c), ParamInjector(traits, c'), r, p, !pushed);
  }

  /** The walk over a list of trait members, split after its first
      element: the rest was walked after the first element, possibly
      taking a different choice of candidate, which then lies beyond the
      first element's sites, so the first element is left alone under
      both choices. */
  lemma {:induction false} TraitMembersCons(ms: seq<TraitMember>, l: int, traits: seq<string>, c: nat, c': nat,
                                      m: TraitMember, rest: seq<TraitMember>, r: seq<TraitMember>, pushed: bool)
    requires |ms| > 0
    requires m == TraitMemberInjector(traits, c)(ms[0], l) && (m == ms[0]) == !pushed
    requires rest == InjectTraitMembers(ms[1..], l - |TraitMemberSites(ms[0])|, traits, c')
    requires c' != c ==> l >= |TraitMemberSites(ms[0])|
    requires r == [m] + rest
    ensures r == InjectTraitMembers(ms, l, traits, c')
    ensures (r == ms) == (!pushed && rest == ms[1..])
    ensures |FlatMap(ms, TraitMemberSites)| == |TraitMemberSites(ms[0])| + |FlatMap(ms[1..], TraitMemberSites)|
  {
    if c' != c {
      TraitMemberUntouched(ms[0], l, traits, c);
      TraitMemberUntouched(ms[0], l, traits, c');
    }
    SplitFirst(ms, r, m, rest);
    FlatMapCons(ms, TraitMemberSites);
  }

  lemma TraitMemberUntouched(m: TraitMember, l: int, traits: seq<string>, idx: nat)
    requires !(0 <= l < |TraitMemberSites(m)|)
    ensures InjectTraitMember(m, l, traits, idx) == m
  {
    TraitMemberInjects(m, l, traits, idx, None);
  }

  /** The walk over a list of impl members, split after its first
      element: the rest was walked after the first element, possibly
      taking a different choice of candidate, which then lies beyond the
      first element's sites, so the first element is left alone under
      both choices. */
  lemma {:induction false} ImplMembersCons(ms: seq<ImplMember>, l: int, traits: seq<string>, c: nat, c': nat,
                                     m: ImplMember, rest: seq<ImplMember>, r: seq<ImplMember>, pushed: bool)
    requires |ms| > 0
    requires m == ImplMemberInjector(traits, c)(ms[0], l) && (m == ms[0]) == !pushed
    requires rest == InjectImplMembers(ms[1..], l - |ImplMemberSites(ms[0])|, traits, c')
    requires c' != c ==> l >= |ImplMemberSites(ms[0])|
    requires r == [m] + rest
    ensures r == InjectImplMembers(ms, l, traits, c')
    ensures (r == ms) == (!pushed && rest == ms[1..])
    ensures |FlatMap(ms, ImplMemberSites)| == |ImplMemberSites(ms[0])| + |FlatMap(ms[1..], ImplMemberSites)|
  {
    if c' != c {
      ImplMemberUntouched(ms[0], l, traits, c);
      ImplMemberUntouched(ms[0], l, traits, c');
    }
    SplitFirst(ms, r, m, rest);
    FlatMapCons(ms, ImplMemberSites);
  }

  lemma ImplMemberUntouched(m: ImplMember, l: int, traits: seq<string>, idx: nat)
    requires !(0 <= l < |ImplMemberSites(m)|)
    ensures InjectImplMember(m, l, traits, idx) == m
  {
    ImplMemberInjects(m, l, traits, idx, None);
  }

  /** A trait rebuilt from its visited parts: the supertrait site first,
      then its type parameters, then its members; the choice of candidate
      only changes at the target, and parts visited before it are left
      alone under both choices. */
  lemma TraitItemStep(n: string, g: Generics, sup: seq<Bound>, ms: seq<TraitMember>, l: int, traits: seq<string>,
                      c1: nat, c3: nat, wp: Option<WherePred>,
                      sup': seq<Bound>, ps: seq<GenericParam>, ms': seq<TraitMember>, r: Item)
    requires l == 0 ==> sup' == PushCandidate(sup, traits, Some(n), c1) && c1 == c3
    requires l != 0 ==> sup' == sup
    requires ps == InjectParams(g.params, l - 1, traits, c3)
    requires ms' == InjectTraitMembers(ms, l - 1 - |ParamSites(g.params)|, traits, c3)
    requires r == TraitDef(n, WithParams(g, ps), sup', ms')
    ensures r == InjectItem(TraitDef(n, g, sup, ms), l, traits, c3, wp)
    ensures (r == TraitDef(n, g, sup, ms)) == (sup' == sup && ps == g.params && ms' == ms)
    ensures |ItemSites(TraitDef(n, g, sup, ms))| == 1 + |ParamSites(g.params)| + |FlatMap(ms, TraitMemberSites)|
  {
    TraitItemShape(n, g, sup, ms, l, traits, c3, wp);
    if ps == g.params {
      assert WithParams(g, ps) == g;
    }
  }

  /** An impl rebuilt from its visited parts: the where site first, then
      its type parameters, then its members. */
  lemma ImplItemStep(g: Generics, tr: Option<TraitRef>, selfTy: Ty, ms: seq<ImplMember>, l: int, traits: seq<string>,
                     c3: nat, wp: Option<WherePred>,
                     g': Generics, ps: seq<GenericParam>, ms': seq<ImplMember>, r: Item)
    requires l == 0 ==> g' == Generics(g.params, if wp.Some? then g.preds + [wp.value] else g.preds)
    requires l != 0 ==> g' == g
    requires ps == InjectParams(g.params, l - 1, traits, c3)
    requires ms' == InjectImplMembers(ms, l - 1 - |ParamSites(g.params)|, traits, c3)
    requires r == ImplDef(Generics(ps, g'.preds), tr, selfTy, ms')
    ensures r == InjectItem(ImplDef(g, tr, selfTy, ms), l, traits, c3, wp)
    ensures (r == ImplDef(g, tr, selfTy, ms)) == (g'.preds == g.preds && ps == g.params && ms' == ms)
    ensures |ItemSites(ImplDef(g, tr, selfTy, ms))| == 1 + |ParamSites(g.params)| + |FlatMap(ms, ImplMemberSites)|
  {
    ImplItemShape(g, tr, selfTy, ms, l, traits, c3, wp);
    if ps == g.params && g'.preds == g.preds {
      assert Generics(ps, g'.preds) == g;
    }
  }

  /** The walk over a file's items, split after its first item: when the
      rest of the walk took the injection, the first item lies before the
      target and is left alone whatever was chosen. */
  lemma {:induction false} ItemsCons(file: File, l: int, info: TtdnInfo, c: nat, c': nat,
                                     w: Option<WherePred>, w': Option<WherePred>,
                                     it: Item, rest: File, r: File, pushed: bool)
    requires |file| > 0
    requires it == InjectItem(file[0], l, info.traits, c, w) && (it == file[0]) == !pushed
    requires rest == InjectFile(file[1..], l - |ItemSites(file[0])|, info.traits, c', w')
    requires c' != c || w' != w ==> l >= |ItemSites(file[0])|
    requires r == [it] + rest
    requires WhereReady(ItemSites(file[0]), l, info, w)
    requires WhereReady(ConstraintSites(file[1..]), l - |ItemSites(file[0])|, info, w')
    ensures r == InjectFile(file, l, info.traits, c', w')
    ensures (r == file) == (!pushed && rest == file[1..])
    ensures |ConstraintSites(file)| == |ItemSites(file[0])| + |ConstraintSites(file[1..])|
    ensures WhereReady(ConstraintSites(file), l, info, w')
  {
    if c' != c || w' != w {
      ItemUntouched(file[0], l, info.traits, c, w);
      ItemUntouched(file[0], l, info.traits, c', w');
    }
    SplitFirst(file, r, it, rest);
    ReadyCons(file, l, info, w, w');
  }

  /** Readiness of a file's first item and of the rest carries over to the
      whole file. */
  lemma ReadyCons(file: File, l: int, info: TtdnInfo, w: Option<WherePred>, w': Option<WherePred>)
    requires |file| > 0
    requires w != w' ==> l >= |ItemSites(file[0])|
    requires WhereReady(ItemSites(file[0]), l, info, w)
    requires WhereReady(ConstraintSites(file[1..]), l - |ItemSites(file[0])|, info, w')
    ensures |ConstraintSites(file)| == |ItemSites(file[0])| + |ConstraintSites(file[1..])|
    ensures WhereReady(ConstraintSites(file), l, info, w')
  {
    FlatMapCons(file, ItemSites);
    ReadyAppend(ItemSites(file[0]), ConstraintSites(file[1..]), l, info, w, w');
  }

  /** Readiness of two site lists carries over to their concatenation
      when the chosen predicate changed only for the second. */
  lemma ReadyAppend(a: seq<Site>, b: seq<Site>, l: int, info: TtdnInfo, w: Option<WherePred>, w': Option<WherePred>)
    requires WhereReady(a, l, info, w) && WhereReady(b, l - |a|, info, w')
    requires w != w' ==> l >= |a|
    ensures WhereReady(a + b, l, info, w')
  {
    if 0 <= l < |a| {
      assert (a + b)[l] == a[l];
    } else if |a| <= l < |a| + |b| {
      assert (a + b)[l] == b[l - |a|];
    }
  }

  // ---------------------------------------------------------------------
  // Where sites: the predicate chosen at the target

  /** `wp` is what the injection at an impl with generics `g` pushes: a
      where-candidate of the impl, or nothing when it has none. */
  ghost predicate WhereChosen(g: Generics, info: TtdnInfo, wp: Option<WherePred>) {
    wp.Some? == HasWhereCandidate(g, info) && (wp.Some? ==> WhereCandidate(wp.value, g, info))
  }

  /** The impl with generics `g` has a where-candidate. */
  ghost predicate HasWhereCandidate(g: Generics, info: TtdnInfo) {
    exists q :: WhereCandidate(q, g, info)
  }

  /** If site `l` of `sites` is a where site, `wp` was chosen for it. */
  ghost predicate WhereReady(sites: seq<Site>, l: int, info: TtdnInfo, wp: Option<WherePred>) {
    0 <= l < |sites| && sites[l].WhereSite? ==> WhereChosen(sites[l].generics, info, wp)
  }

  /** Site `s` has something to inject: a where-candidate for an impl's
      where site, a candidate bound for the other kinds. */
  ghost predicate SiteOpen(s: Site, info: TtdnInfo) {
    if s.WhereSite? then HasWhereCandidate(s.generics, info) else SiteCandidates(s, info.traits) != []
  }

  lemma ParamSitesNoWhere(ps: seq<GenericParam>)
    ensures forall s :: s in ParamSites(ps) ==> !s.WhereSite?
  {
    forall s | s in ParamSites(ps)
      ensures !s.WhereSite?
    {
      FlatMapMember(ps, ParamSite, s);
    }
  }

  lemma TraitMemberSitesNoWhere(ms: seq<TraitMember>)
    ensures forall s :: s in FlatMap(ms, TraitMemberSites) ==> !s.WhereSite?
  {
    forall s | s in FlatMap(ms, TraitMemberSites)
      ensures !s.WhereSite?
    {
      FlatMapMember(ms, TraitMemberSites, s);
      var i :| 0 <= i < |ms| && s in TraitMemberSites(ms[i]);
      if ms[i].Method? {
        ParamSitesNoWhere(ms[i].sig.generics.params);
      }
    }
  }

  lemma ImplMemberSitesNoWhere(ms: seq<ImplMember>)
    ensures forall s :: s in FlatMap(ms, ImplMemberSites) ==> !s.WhereSite?
  {
    forall s | s in FlatMap(ms, ImplMemberSites)
      ensures !s.WhereSite?
    {
      FlatMapMember(ms, ImplMemberSites, s);
      var i :| 0 <= i < |ms| && s in ImplMemberSites(ms[i]);
      match ms[i]
      case AssocTypeDef(_, g, _) => ParamSitesNoWhere(g.params);
      case MethodDef(sig, _) => ParamSitesNoWhere(sig.generics.params);
      case _ =>
    }
  }

  /** An impl's only where site is its first; no other item has one. */
  lemma ItemReady(it: Item, l: int, info: TtdnInfo, wp: Option<WherePred>)
    requires it.ImplDef? && l == 0 ==> WhereChosen(it.generics, info, wp)
    ensures WhereReady(ItemSites(it), l, info, wp)
  {
    var sites := ItemSites(it);
    if 0 <= l < |sites| && !(it.ImplDef? && l == 0) {
      assert sites[l] in sites;
      match it
      case TraitDef(n, g, sup, ms) =>
        ParamSitesNoWhere(g.params);
        TraitMemberSitesNoWhere(ms);
      case ImplDef(g, _, selfTy, ms) =>
        ParamSitesNoWhere(g.params);
        ImplMemberSitesNoWhere(ms);
      case StructDef(_, g, _) => ParamSitesNoWhere(g.params);
      case EnumDef(_, g, _) => ParamSitesNoWhere(g.params);
      case FnDef(sig, _) => ParamSitesNoWhere(sig.generics.params);
      case OtherItem(_) =>
    }
  }

  /** The injection at site `l` of a file, with `wp` chosen for a where
      site there, changes only that site, and changes the file exactly
      when that site has something to inject. */
  lemma InjectionOutcome(file: File, l: nat, info: TtdnInfo, idx: nat, wp: Option<WherePred>, r: File)
    requires r == InjectFile(file, l, info.traits, idx, wp)
    requires WhereReady(ConstraintSites(file), l, info, wp)
    ensures Injects(ConstraintSites(file), ConstraintSites(r), l, info.traits, idx, wp)
    ensures (r != file) == (l < |ConstraintSites(file)| && SiteOpen(ConstraintSites(file)[l], info))
  {
    InjectFileSites(file, l, info.traits, idx, wp);
  }

  // ---------------------------------------------------------------------
  // The applier

  class Applier {
    /** The site to inject at, counted in visiting order. */
    const target: nat
    /** The analysis of the file being mutated. */
    const info: TtdnInfo
    /** The candidate to pick at the target; none for a random pick. */
    const constraintIndex: Option<nat>
    /** Sites visited so far. */
    var current: nat
    var mutated: bool
    /** How many candidates the target site had. */
    var constraintCount: nat
    /** The candidate picked at the target site. */
    var chosen: nat
    /** The where-predicate pushed at the target site, if that is where
        the injection went. */
    ghost var injected: Option<WherePred>

    constructor (target: nat, info: TtdnInfo, constraintIndex: Option<nat>, constraintCount: nat, chosen: nat)
      ensures this.target == target && this.info == info && this.constraintIndex == constraintIndex
      ensures current == 0 && !mutated && this.constraintCount == constraintCount && this.chosen == chosen
      ensures injected == None
    {
      this.target := target;
      this.info := info;
      this.constraintIndex := constraintIndex;
      current := 0;
      mutated := false;
      this.constraintCount := constraintCount;
      this.chosen := chosen;
      injected := None;
    }

    /** The candidate index among `n`: the given constraint index modulo
        `n`, or a random one when there is none. */
    method PickIndex(n: nat) returns (k: nat)
      requires n > 0
      ensures k < n
      ensures constraintIndex.Some? ==> k == constraintIndex.value % n
    {
      match constraintIndex {
        case Some(c) =>
          k := c % n;
        case None =>
          k :| k < n;
      }
    }

    /** `inject_supertrait`, `inject_generic_bound` and
        `inject_assoc_bound`: with no candidate the count becomes 0 and
        nothing is pushed; otherwise the count is the number of candidates
        and the picked candidate is pushed onto the bounds. */
    method InjectBounds(bounds: seq<Bound>, own: Option<string>) returns (r: seq<Bound>, pushed: bool)
      modifies this
      ensures current == old(current) && mutated == old(mutated) && injected == old(injected)
      ensures constraintCount == |BoundCandidates(info.traits, bounds, own)|
      ensures pushed <==> constraintCount > 0
      ensures pushed ==> chosen < constraintCount
      ensures pushed && constraintIndex.Some? ==> chosen == constraintIndex.value % constraintCount
      ensures !pushed ==> chosen == old(chosen)
      ensures r == PushCandidate(bounds, info.traits, own, chosen)
      ensures r == bounds <==> !pushed
    {
      var cands := CandidateBounds(info.traits, bounds, own);
      if cands == [] {
        constraintCount := 0;
        return bounds, false;
      }
      var k := PickIndex(|cands|);
      PushCandidateAt(bounds, info.traits, own, k);
      constraintCount, chosen := |cands|, k;
      r, pushed := bounds + [cands[k]], true;
    }

    /** `inject_where_predicate`: the picked where-predicate candidate is
        pushed onto the impl's where clause. */
    method InjectWhere(g: Generics, selfTy: Ty) returns (r: Generics, pushed: bool)
      modifies this
      ensures current == old(current) && mutated == old(mutated)
      ensures pushed <==> exists q :: WhereCandidate(q, g, info)
      ensures pushed ==> injected.Some? && WhereCandidate(injected.value, g, info)
      ensures pushed ==> r == Generics(g.params, g.preds + [injected.value]) && chosen < constraintCount
      ensures pushed && constraintIndex.Some? ==> chosen == constraintIndex.value % constraintCount
      ensures !pushed ==> r == g && injected == None && chosen == old(chosen) && constraintCount == 0
    {
      var cands := WhereCandidates(g, selfTy, info);
      if cands == [] {
        constraintCount, injected := 0, None;
        return g, false;
      }
      constraintCount := |cands|;
      var k := PickIndex(|cands|);
      chosen := k;
      assert cands[k] in cands;
      injected := Some(cands[k]);
      r := Generics(g.params, g.preds + [cands[k]]);
      pushed := true;
    }

    /** `visit_generic_param_mut`: a type parameter is a site, and at the
        target it receives a new bound. */
    method VisitParam(p: GenericParam) returns (r: GenericParam, pushed: bool)
      modifies this
      ensures current == old(current) + |ParamSite(p)|
      ensures r == InjectParam(p, target - old(current), info.traits, chosen)
      ensures (r == p) == !pushed
      ensures mutated == (old(mutated) || pushed) && injected == old(injected)
      ensures !(old(current) <= target < current) ==> chosen == old(chosen)
    {
      r, pushed := p, false;
      if p.TypeParam? {
        if current == target {
          var b;
          b, pushed := InjectBounds(p.bounds, None);
          r := p.(bounds := b);
          mutated := pushed || mutated;
        }
        current := current + 1;
      }
    }

    /** `visit_generic_param_mut` over a parameter list: each type
        parameter is a site. */
    method VisitParams(ps: seq<GenericParam>) returns (r: seq<GenericParam>)
      modifies this
      ensures current == old(current) + |ParamSites(ps)|
      ensures r == InjectParams(ps, target - old(current), info.traits, chosen)
      ensures mutated == (old(mutated) || r != ps)
      ensures injected == old(injected)
      ensures !(old(current) <= target < current) ==> chosen == old(chosen)
    {
      ghost var c0 := current;
      ghost var l := target - c0;
      r := [];
      for k := 0 to |ps|
        invariant current == c0 + |ParamSites(ps[..k])|
        invariant r == InjectParams(ps[..k], l, info.traits, chosen)
        invariant mutated == (old(mutated) || r != ps[..k])
        invariant injected == old(injected)
        invariant !(c0 <= target < current) ==> chosen == old(chosen)
      {
        FlatMapStep(ps, ParamSite, k);
        ghost var c, cur := chosen, current;
        var p, pushed := VisitParam(ps[k]);
        ParamsStep(ps, k, l, target - cur, info.traits, c, chosen, r, p, pushed);
        r := r + [p];
      }
      WalkDone(ps, r);
    }

    /** `visit_trait_item_type_mut` (an associated type is a site; its
        own generics are not visited) and the method signatures of a
        trait. */
    method VisitTraitMember(m: TraitMember) returns (r: TraitMember, pushed: bool)
      modifies this
      ensures current == old(current) + |TraitMemberSites(m)|
      ensures r == TraitMemberInjector(info.traits, chosen)(m, target - old(current))
      ensures (r == m) == !pushed
      ensures mutated == (old(mutated) || pushed) && injected == old(injected)
      ensures !(old(current) <= target < current) ==> chosen == old(chosen)
    {
      r, pushed := m, false;
      match m {
        case AssocType(n, g, b, d) =>
          if current == target {
            var b';
            b', pushed := InjectBounds(b, None);
            r := AssocType(n, g, b', d);
            mutated := pushed || mutated;
          }
          current := current + 1;
        case Method(sig, body) =>
          var ps := VisitParams(sig.generics.params);
          r := Method(WithSigParams(sig, ps), body);
          pushed := ps != sig.generics.params;
        case AssocConst(_, _, _) =>
        case OtherTraitMember(_) =>
      }
    }

    method VisitTraitMembers(ms: seq<TraitMember>) returns (r: seq<TraitMember>)
      modifies this
      ensures current == old(current) + |FlatMap(ms, TraitMemberSites)|
      ensures r == InjectTraitMembers(ms, target - old(current), info.traits, chosen)
      ensures mutated == (old(mutated) || r != ms)
      ensures injected == old(injected)
      ensures !(old(current) <= target < current) ==> chosen == old(chosen)
      decreases |ms|
    {
      if ms == [] {
        return [];
      }
      ghost var c0 := current;
      var m, pushed := VisitTraitMember(ms[0]);
      ghost var c := chosen;
      var rest := VisitTraitMembers(ms[1..]);
      r := [m] + rest;
      TraitMembersCons(ms, target - old(current), info.traits, c, chosen, m, rest, r, pushed);
    }

    /** The associated types and methods of an impl: their type
        parameters are sites. */
    method VisitImplMember(m: ImplMember) returns (r: ImplMember, pushed: bool)
      modifies this
      ensures current == old(current) + |ImplMemberSites(m)|
      ensures r == ImplMemberInjector(info.traits, chosen)(m, target - old(current))
      ensures (r == m) == !pushed
      ensures mutated == (old(mutated) || pushed) && injected == old(injected)
      ensures !(old(current) <= target < current) ==> chosen == old(chosen)
    {
      r, pushed := m, false;
      match m {
        case AssocTypeDef(n, g, ty) =>
          var ps := VisitParams(g.params);
          r := AssocTypeDef(n, WithParams(g, ps), ty);
          pushed := ps != g.params;
        case MethodDef(sig, body) =>
          var ps := VisitParams(sig.generics.params);
          r := MethodDef(WithSigParams(sig, ps), body);
          pushed := ps != sig.generics.params;
        case ConstDef(_, _, _) =>
        case OtherImplMember(_) =>
      }
    }

    method VisitImplMembers(ms: seq<ImplMember>) returns (r: seq<ImplMember>)
      modifies this
      ensures current == old(current) + |FlatMap(ms, ImplMemberSites)|
      ensures r == InjectImplMembers(ms, target - old(current), info.traits, chosen)
      ensures mutated == (old(mutated) || r != ms)
      ensures injected == old(injected)
      ensures !(old(current) <= target < current) ==> chosen == old(chosen)
      decreases |ms|
    {
      if ms == [] {
        return [];
      }
      ghost var c0 := current;
      var m, pushed := VisitImplMember(ms[0]);
      ghost var c := chosen;
      var rest := VisitImplMembers(ms[1..]);
      r := [m] + rest;
      ImplMembersCons(ms, target - old(current), info.traits, c, chosen, m, rest, r, pushed);
    }

    /** `visit_item_trait_mut`: the supertrait site, then the trait's type
        parameters and members. */
    method VisitTrait(n: string, g: Generics, sup: seq<Bound>, ms: seq<TraitMember>) returns (r: Item, pushed: bool)
      modifies this
      ensures current == old(current) + |ItemSites(TraitDef(n, g, sup, ms))|
      ensures r == InjectItem(TraitDef(n, g, sup, ms), target - old(current), info.traits, chosen, injected)
      ensures (r == TraitDef(n, g, sup, ms)) == !pushed
      ensures mutated == (old(mutated) || pushed) && injected == old(injected)
      ensures !(old(current) <= target < current) ==> chosen == old(chosen)
    {
      ghost var c0 := current;
      var sup', p0 := VisitSupertraitSite(n, sup);
      ghost var c1 := chosen;
      var ps, ms' := VisitTraitBody(g.params, ms);
      r := TraitDef(n, WithParams(g, ps), sup', ms');
      TraitItemStep(n, g, sup, ms, target - c0, info.traits, c1, chosen, injected, sup', ps, ms', r);
      pushed := p0 || ps != g.params || ms' != ms;
    }

    /** The supertrait site a trait opens with: at the target a picked
        trait is added to the supertraits; the site is counted either way. */
    method VisitSupertraitSite(n: string, sup: seq<Bound>) returns (sup': seq<Bound>, pushed: bool)
      modifies this
      ensures current == old(current) + 1 && mutated == (old(mutated) || pushed) && injected == old(injected)
      ensures old(current) == target ==> sup' == PushCandidate(sup, info.traits, Some(n), chosen)
      ensures old(current) != target ==> sup' == sup && chosen == old(chosen)
      ensures pushed == (sup' != sup)
    {
      sup', pushed := sup, false;
      if current == target {
        sup', pushed := InjectBounds(sup, Some(n));
        mutated := pushed || mutated;
      }
      current := current + 1;
    }

    /** `visit_item_impl_mut`: the where site, then the impl's type
        parameters and members. */
    method VisitImpl(g: Generics, tr: Option<TraitRef>, selfTy: Ty, ms: seq<ImplMember>) returns (r: Item, pushed: bool)
      modifies this
      ensures current == old(current) + |ItemSites(ImplDef(g, tr, selfTy, ms))|
      ensures r == InjectItem(ImplDef(g, tr, selfTy, ms), target - old(current), info.traits, chosen, injected)
      ensures (r == ImplDef(g, tr, selfTy, ms)) == !pushed
      ensures mutated == (old(mutated) || pushed)
      ensures !(old(current) <= target < current) ==> chosen == old(chosen) && injected == old(injected)
      ensures WhereReady(ItemSites(ImplDef(g, tr, selfTy, ms)), target - old(current), info, injected)
    {
      ghost var c0, ch0, in0 := current, chosen, injected;
      var g', p0 := VisitWhereSite(g, selfTy);
      ghost var ch1, in1 := chosen, injected;
      var ps, ms' := VisitImplBody(g.params, ms);
      r := ImplDef(Generics(ps, g'.preds), tr, selfTy, ms');
      ImplItemStep(g, tr, selfTy, ms, target - c0, info.traits, chosen, injected, g', ps, ms', r);
      ItemReady(ImplDef(g, tr, selfTy, ms), target - c0, info, injected);
      pushed := p0 || ps != g.params || ms' != ms;
    }

    /** The where site an impl opens with: at the target the picked
        where-predicate is added; the site is counted either way. */
    method VisitWhereSite(g: Generics, selfTy: Ty) returns (g': Generics, pushed: bool)
      modifies this
      ensures current == old(current) + 1 && mutated == (old(mutated) || pushed)
      ensures old(current) == target ==> g' == Generics(g.params, if injected.Some? then g.preds + [injected.value] else g.preds)
      ensures old(current) != target ==> g' == g && chosen == old(chosen) && injected == old(injected)
      ensures pushed == (g'.preds != g.preds)
      ensures old(current) == target ==> WhereChosen(g, info, injected)
    {
      g', pushed := g, false;
      if current == target {
        g', pushed := InjectWhere(g, selfTy);
        mutated := pushed || mutated;
      }
      current := current + 1;
    }

    /** The default traversal of a trait after its supertrait site: its
        type parameters, then its members. */
    method VisitTraitBody(ps: seq<GenericParam>, ms: seq<TraitMember>) returns (ps': seq<GenericParam>, ms': seq<TraitMember>)
      modifies this
      ensures current == old(current) + |ParamSites(ps)| + |FlatMap(ms, TraitMemberSites)|
      ensures ps' == InjectParams(ps, target - old(current), info.traits, chosen)
      ensures ms' == InjectTraitMembers(ms, target - old(current) - |ParamSites(ps)|, info.traits, chosen)
      ensures mutated == (old(mutated) || ps' != ps || ms' != ms) && injected == old(injected)
      ensures !(old(current) <= target < current) ==> chosen == old(chosen)
    {
      ghost var c0 := current;
      ps' := VisitParams(ps);
      ghost var c := chosen;
      ms' := VisitTraitMembers(ms);
      if c != chosen {
        ParamsUntouched(ps, target - c0, info.traits, c);
        ParamsUntouched(ps, target - c0, info.traits, chosen);
      }
    }

    /** The default traversal of an impl after its where site: its type
        parameters, then its members. */
    method VisitImplBody(ps: seq<GenericParam>, ms: seq<ImplMember>) returns (ps': seq<GenericParam>, ms': seq<ImplMember>)
      modifies this
      ensures current == old(current) + |ParamSites(ps)| + |FlatMap(ms, ImplMemberSites)|
      ensures ps' == InjectParams(ps, target - old(current), info.traits, chosen)
      ensures ms' == InjectImplMembers(ms, target - old(current) - |ParamSites(ps)|, info.traits, chosen)
      ensures mutated == (old(mutated) || ps' != ps || ms' != ms) && injected == old(injected)
      ensures !(old(current) <= target < current) ==> chosen == old(chosen)
    {
      ghost var c0, in0 := current, injected;
      ps' := VisitParams(ps);
      ghost var c1, c := current, chosen;
      ms' := VisitImplMembers(ms);
      if c != chosen {
        ParamsUntouched(ps, target - c0, info.traits, c);
        ParamsUntouched(ps, target - c0, info.traits, chosen);
      }
    }

    /** One item: traits and impls as above; the type parameters of
        structs, enums and functions are sites. */
    method VisitItem(it: Item) returns (r: Item, pushed: bool)
      modifies this
      ensures current == old(current) + |ItemSites(it)|
      ensures r == InjectItem(it, target - old(current), info.traits, chosen, injected)
      ensures (r == it) == !pushed
      ensures mutated == (old(mutated) || pushed)
      ensures !(old(current) <= target < current) ==> chosen == old(chosen) && injected == old(injected)
      ensures WhereReady(ItemSites(it), target - old(current), info, injected)
    {
      match it {
        case TraitDef(n, g, sup, ms) =>
          r, pushed := VisitTrait(n, g, sup, ms);
        case ImplDef(g, tr, selfTy, ms) =>
          r, pushed := VisitImpl(g, tr, selfTy, ms);
        case StructDef(n, g, fs) =>
          var ps := VisitParams(g.params);
          r, pushed := StructDef(n, WithParams(g, ps), fs), ps != g.params;
        case EnumDef(n, g, vs) =>
          var ps := VisitParams(g.params);
          r, pushed := EnumDef(n, WithParams(g, ps), vs), ps != g.params;
        case FnDef(sig, body) =>
          var ps := VisitParams(sig.generics.params);
          r, pushed := FnDef(WithSigParams(sig, ps), body), ps != sig.generics.params;
        case OtherItem(_) =>
          r, pushed := it, false;
      }
      if !it.ImplDef? {
        ItemReady(it, target - old(current), info, injected);
      }
    }

    /** The items of a file in order. */
    method VisitItems(file: File) returns (r: File)
      modifies this
      ensures current == old(current) + |ConstraintSites(file)|
      ensures r == InjectFile(file, target - old(current), info.traits, chosen, injected)
      ensures mutated == (old(mutated) || r != file)
      ensures !(old(current) <= target < current) ==> chosen == old(chosen) && injected == old(injected)
      decreases |file|
      ensures WhereReady(ConstraintSites(file), target - old(current), info, injected)
    {
      if file == [] {
        return [];
      }
      var it, pushed := VisitItem(file[0]);
      ghost var c, w := chosen, injected;
      var rest := VisitItems(file[1..]);
      r := [it] + rest;
      ItemsCons(file, target - old(current), info, c, chosen, w, injected, it, rest, r, pushed);
    }


    /** `visit_file_mut` on a fresh applier: it meets exactly the sites
        the collectors count; the file after the walk is the injection at
        site `target`, which changes that site's constraints and no other
        site's; and the walk reports a mutation exactly when the target
        site exists and has something to inject. */
    method VisitFile(file: File) returns (r: File)
      requires current == 0 && !mutated
      modifies this
      ensures current == |ConstraintSites(file)|
      ensures r == InjectFile(file, target, info.traits, chosen, injected)
      ensures Injects(ConstraintSites(file), ConstraintSites(r), target, info.traits, chosen, injected)
      ensures mutated == (r != file)
      ensures mutated == (target < |ConstraintSites(file)| && SiteOpen(ConstraintSites(file)[target], info))
      ensures WhereReady(ConstraintSites(file), target, info, injected)
    {
      r := VisitItems(file);
      InjectionOutcome(file, target, info, chosen, injected, r);
    }

  }
}
