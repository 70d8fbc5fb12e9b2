/** The trait/type dependency summary of a file (TTDN): which traits and
    types it declares, which types implement which traits, supertrait and
    associated-type edges, and the associated-type bindings of trait
    impls; and the constraint-choice metrics derived from it. */
module Ttdn {
  import opened Wrappers
  import opened Syntax
  import opened Ordering
  import opened Flatten

  /** `type Assoc = Rhs;` inside `impl Trait for SelfTy`. */
  datatype Binding = Binding(selfTy: string, traitName: string, assoc: string, rhs: Ty)

  datatype TtdnInfo = TtdnInfo(
    traits: seq<string>,
    types: seq<string>,
    implEdges: seq<(string, string)>,
    supertraitEdges: seq<(string, string)>,
    traitAssocTypes: seq<(string, string)>,
    bindings: seq<Binding>)

  const EmptyInfo := TtdnInfo([], [], [], [], [], [])

  /** The sort keys: the identifier text, the pair of texts, and for a
      binding the three identifiers with the token text of its type. */
  function NameKey(n: string): seq<string> { [n] }
  function PairKey(p: (string, string)): seq<string> { [p.0, p.1] }
  function BindingKey(b: Binding): seq<string> { [b.selfTy, b.traitName, b.assoc, Tokens(b.rhs)] }

  /** The (type, trait) edge of `impl Trait for Type` when both the trait
      path and the self type are bare identifiers. */
  function ImplEdge(it: Item): Option<(string, string)> {
    if it.ImplDef? && it.traitRef.Some? then
      match (TyIdent(it.selfTy), TraitRefIdent(it.traitRef.value))
      case (Some(ty), Some(tr)) => Some((ty, tr))
      case _ => None
    else None
  }

  /** What the collector pushes for one item, list by list. */
  function ItemTraits(it: Item): seq<string> {
    if it.TraitDef? then [it.name] else []
  }

  function ItemTypes(it: Item): seq<string> {
    if it.StructDef? || it.EnumDef? then [it.name] else []
  }

  function ItemImplEdges(it: Item): seq<(string, string)> {
    if ImplEdge(it).Some? then [ImplEdge(it).value] else []
  }

  function SupertraitOf(t: string): Bound -> seq<(string, string)> {
    (b: Bound) => if b.TraitBound? then [(t, b.name)] else []
  }

  function ItemSupertraitEdges(it: Item): seq<(string, string)> {
    if it.TraitDef? then FlatMap(it.supertraits, SupertraitOf(it.name)) else []
  }

  function AssocTypeOf(t: string): TraitMember -> seq<(string, string)> {
    (m: TraitMember) => if m.AssocType? then [(t, m.name)] else []
  }

  function ItemTraitAssocTypes(it: Item): seq<(string, string)> {
    if it.TraitDef? then FlatMap(it.members, AssocTypeOf(it.name)) else []
  }

  function BindingOf(ty: string, tr: string): ImplMember -> seq<Binding> {
    (m: ImplMember) => if m.AssocTypeDef? then [Binding(ty, tr, m.name, m.ty)] else []
  }

  function ItemBindings(it: Item): seq<Binding> {
    match ImplEdge(it)
    case Some((ty, tr)) => FlatMap(it.implMembers, BindingOf(ty, tr))
    case None => []
  }

  /** The unsorted lists the collector builds for `file`. */
  function RawInfo(file: File): TtdnInfo {
    TtdnInfo(
      FlatMap(file, ItemTraits), FlatMap(file, ItemTypes), FlatMap(file, ItemImplEdges),
      FlatMap(file, ItemSupertraitEdges), FlatMap(file, ItemTraitAssocTypes), FlatMap(file, ItemBindings))
  }

  /** The pushes for a trait's associated types. */
  method PushAssocTypes(acc: seq<(string, string)>, t: string, ms: seq<TraitMember>) returns (r: seq<(string, string)>)
    ensures r == acc + FlatMap(ms, AssocTypeOf(t))
  {
    r := acc;
    for j := 0 to |ms|
      invariant r == acc + FlatMap(ms[..j], AssocTypeOf(t))
    {
      FlatMapStep(ms, AssocTypeOf(t), j);
      if ms[j].AssocType? {
        r := r + [(t, ms[j].name)];
      }
    }
    assert ms[..|ms|] == ms;
  }

  /** The pushes for a trait's single-identifier supertraits. */
  method PushSupertraits(acc: seq<(string, string)>, t: string, bounds: seq<Bound>) returns (r: seq<(string, string)>)
    ensures r == acc + FlatMap(bounds, SupertraitOf(t))
  {
    r := acc;
    for j := 0 to |bounds|
      invariant r == acc + FlatMap(bounds[..j], SupertraitOf(t))
    {
      FlatMapStep(bounds, SupertraitOf(t), j);
      if bounds[j].TraitBound? {
        r := r + [(t, bounds[j].name)];
      }
    }
    assert bounds[..|bounds|] == bounds;
  }

  /** The collector's pushes for a trait: its name, then an edge per
      associated type, then an edge per single-identifier supertrait. */
  method VisitTrait(acc: TtdnInfo, it: Item) returns (r: TtdnInfo)
    requires it.TraitDef?
    ensures r == acc.(traits := acc.traits + [it.name],
                      traitAssocTypes := acc.traitAssocTypes + ItemTraitAssocTypes(it),
                      supertraitEdges := acc.supertraitEdges + ItemSupertraitEdges(it))
  {
    var assoc := PushAssocTypes(acc.traitAssocTypes, it.name, it.members);
    var supers := PushSupertraits(acc.supertraitEdges, it.name, it.supertraits);
    r := acc.(traits := acc.traits + [it.name], traitAssocTypes := assoc, supertraitEdges := supers);
  }

  /** The collector's pushes for an impl: nothing unless it is
      `impl Trait for Type` with both bare identifiers; then the edge and a
      binding per associated type. */
  method VisitImpl(acc: TtdnInfo, it: Item) returns (r: TtdnInfo)
    requires it.ImplDef?
    ensures r == acc.(implEdges := acc.implEdges + ItemImplEdges(it),
                      bindings := acc.bindings + ItemBindings(it))
  {
    r := acc;
    var edge := ImplEdge(it);
    if edge.Some? {
      var (ty, tr) := edge.value;
      r := r.(implEdges := r.implEdges + [(ty, tr)]);
      var bindings := acc.bindings;
      for j := 0 to |it.implMembers|
        invariant bindings == acc.bindings + FlatMap(it.implMembers[..j], BindingOf(ty, tr))
      {
        FlatMapStep(it.implMembers, BindingOf(ty, tr), j);
        if it.implMembers[j].AssocTypeDef? {
          bindings := bindings + [Binding(ty, tr, it.implMembers[j].name, it.implMembers[j].ty)];
        }
      }
      assert it.implMembers[..|it.implMembers|] == it.implMembers;
      r := r.(bindings := bindings);
    }
  }

  /** The collector's visit of one item. */
  method VisitItem(acc: TtdnInfo, it: Item) returns (r: TtdnInfo)
    ensures r == TtdnInfo(
      acc.traits + ItemTraits(it), acc.types + ItemTypes(it), acc.implEdges + ItemImplEdges(it),
      acc.supertraitEdges + ItemSupertraitEdges(it), acc.traitAssocTypes + ItemTraitAssocTypes(it),
      acc.bindings + ItemBindings(it))
  {
    match it {
      case TraitDef(_, _, _, _) => r := VisitTrait(acc, it);
      case ImplDef(_, _, _, _) => r := VisitImpl(acc, it);
      case StructDef(name, _, _) => r := acc.(types := acc.types + [name]);
      case EnumDef(name, _, _) => r := acc.(types := acc.types + [name]);
      case FnDef(_, _) => r := acc;
      case OtherItem(_) => r := acc;
    }
  }

  /** The collector's walk over the file. */
  method Collect(file: File) returns (raw: TtdnInfo)
    ensures raw == RawInfo(file)
  {
    raw := EmptyInfo;
    for k := 0 to |file|
      invariant raw == RawInfo(file[..k])
    {
      FlatMapStep(file, ItemTraits, k);
      FlatMapStep(file, ItemTypes, k);
      FlatMapStep(file, ItemImplEdges, k);
      FlatMapStep(file, ItemSupertraitEdges, k);
      FlatMapStep(file, ItemTraitAssocTypes, k);
      FlatMapStep(file, ItemBindings, k);
      raw := VisitItem(raw, file[k]);
    }
    assert file[..|file|] == file;
  }

  /** With a key that tells elements apart, sort + dedup keeps exactly the
      elements of the input. */
  lemma SameMembers<T>(xs: seq<T>, r: seq<T>, key: T -> seq<string>)
    requires forall a, b :: key(a) == key(b) ==> a == b
    requires forall y :: y in r ==> y in xs
    requires Keys(r, key) == Keys(xs, key)
    ensures forall y :: y in r <==> y in xs
  {
    forall y | y in xs
      ensures y in r
    {
      assert key(y) in Keys(xs, key);
      var z :| z in r && key(z) == key(y);
    }
  }

  /** Sort + dedup of a list of identifiers. */
  method SortNames(xs: seq<string>) returns (r: seq<string>)
    ensures StrictlySorted(r, NameKey)
    ensures forall n :: n in r <==> n in xs
  {
    r := SortDedup(xs, NameKey);
    forall a, b | NameKey(a) == NameKey(b)
      ensures a == b
    {
      assert NameKey(a)[0] == a;
    }
    SameMembers(xs, r, NameKey);
  }

  /** Sort + dedup of a list of identifier pairs. */
  method SortPairs(xs: seq<(string, string)>) returns (r: seq<(string, string)>)
    ensures StrictlySorted(r, PairKey)
    ensures forall p :: p in r <==> p in xs
  {
    r := SortDedup(xs, PairKey);
    forall a, b | PairKey(a) == PairKey(b)
      ensures a == b
    {
      assert PairKey(a)[0] == a.0 && PairKey(a)[1] == a.1;
    }
    SameMembers(xs, r, PairKey);
  }

  /** `TtdnInfo::from_file`: collect, then sort each list by its key and
      drop adjacent duplicates. Every list ends up strictly increasing in
      its key and holds exactly what was collected (for bindings: one
      binding per distinct key). */
  method FromFile(file: File) returns (info: TtdnInfo)
    ensures StrictlySorted(info.traits, NameKey) && StrictlySorted(info.types, NameKey)
    ensures StrictlySorted(info.implEdges, PairKey) && StrictlySorted(info.supertraitEdges, PairKey)
    ensures StrictlySorted(info.traitAssocTypes, PairKey) && StrictlySorted(info.bindings, BindingKey)
    ensures forall n :: n in info.traits <==> n in RawInfo(file).traits
    ensures forall n :: n in info.types <==> n in RawInfo(file).types
    ensures forall p :: p in info.implEdges <==> p in RawInfo(file).implEdges
    ensures forall p :: p in info.supertraitEdges <==> p in RawInfo(file).supertraitEdges
    ensures forall p :: p in info.traitAssocTypes <==> p in RawInfo(file).traitAssocTypes
    ensures forall b :: b in info.bindings ==> b in RawInfo(file).bindings
    ensures Keys(info.bindings, BindingKey) == Keys(RawInfo(file).bindings, BindingKey)
  {
    var raw := Collect(file);
    var traits := SortNames(raw.traits);
    var types := SortNames(raw.types);
    var implEdges := SortPairs(raw.implEdges);
    var supertraitEdges := SortPairs(raw.supertraitEdges);
    var traitAssocTypes := SortPairs(raw.traitAssocTypes);
    var bindings := SortDedup(raw.bindings, BindingKey);
    info := TtdnInfo(traits, types, implEdges, supertraitEdges, traitAssocTypes, bindings);
  }

  /** Impl edges are recorded for exactly the trait impls whose trait path
      and self type are both bare identifiers. */
  lemma ImplEdgesOnlyForIdentImpls(file: File, ty: string, tr: string)
    ensures (ty, tr) in RawInfo(file).implEdges <==>
      exists i :: 0 <= i < |file| && file[i].ImplDef? && file[i].traitRef.Some?
        && TraitRefIdent(file[i].traitRef.value) == Some(tr) && TyIdent(file[i].selfTy) == Some(ty)
  {
    FlatMapMember(file, ItemImplEdges, (ty, tr));
  }

  /** Every binding comes from an associated type of such an impl, and so
      does its impl edge. */
  lemma BindingsOnlyForIdentImpls(file: File, b: Binding)
    requires b in RawInfo(file).bindings
    ensures (b.selfTy, b.traitName) in RawInfo(file).implEdges
  {
    FlatMapMember(file, ItemBindings, b);
    var i :| 0 <= i < |file| && b in ItemBindings(file[i]);
    var it := file[i];
    FlatMapMember(it.implMembers, BindingOf(ImplEdge(it).value.0, ImplEdge(it).value.1), b);
    FlatMapMember(file, ItemImplEdges, (b.selfTy, b.traitName));
    assert (b.selfTy, b.traitName) in ItemImplEdges(file[i]);
  }

  /** `any_constraint_pair`: a random impl edge, or none when there is no
      edge. */
  method AnyConstraintPair(info: TtdnInfo) returns (r: Option<(string, string)>)
    ensures r.None? <==> info.implEdges == []
    ensures r.Some? ==> r.value in info.implEdges
  {
    if info.implEdges == [] {
      return None;
    }
    var i :| 0 <= i < |info.implEdges|;
    r := Some(info.implEdges[i]);
  }

  // ---------------------------------------------------------------------
  // Constraint-choice metrics

  /** A constraint-injection site, in the order the visitor meets them: a
      trait (a new supertrait), an impl (a new where-predicate), a type
      parameter (a new bound) and a trait's associated type (a new bound). */
  datatype Site =
    | SupertraitSite(traitName: string, supertraits: seq<Bound>)
    | WhereSite(generics: Generics, selfTy: Ty)
    | GenericSite(param: string, bounds: seq<Bound>)
    | AssocBoundSite(assoc: string, bounds: seq<Bound>)

  function ParamSite(p: GenericParam): seq<Site> {
    if p.TypeParam? then [GenericSite(p.name, p.bounds)] else []
  }

  function ParamSites(ps: seq<GenericParam>): seq<Site> {
    FlatMap(ps, ParamSite)
  }

  /** The visitor does not descend into an associated type, so the type
      parameters of a generic associated type are not sites. */
  function TraitMemberSites(m: TraitMember): seq<Site> {
    match m
    case AssocType(n, _, b, _) => [AssocBoundSite(n, b)]
    case Method(sig, _) => ParamSites(sig.generics.params)
    case _ => []
  }

  function ImplMemberSites(m: ImplMember): seq<Site> {
    match m
    case AssocTypeDef(_, g, _) => ParamSites(g.params)
    case MethodDef(sig, _) => ParamSites(sig.generics.params)
    case _ => []
  }

  function ItemSites(it: Item): seq<Site> {
    match it
    case TraitDef(n, g, sup, ms) => [SupertraitSite(n, sup)] + ParamSites(g.params) + FlatMap(ms, TraitMemberSites)
    case ImplDef(g, _, selfTy, ms) => [WhereSite(g, selfTy)] + ParamSites(g.params) + FlatMap(ms, ImplMemberSites)
    case StructDef(_, g, _) => ParamSites(g.params)
    case EnumDef(_, g, _) => ParamSites(g.params)
    case FnDef(sig, _) => ParamSites(sig.generics.params)
    case OtherItem(_) => []
  }

  /** The constraint-injection sites of a file in visiting order. */
  function ConstraintSites(file: File): seq<Site> {
    FlatMap(file, ItemSites)
  }

  /** `count_trait_choices`: how many pool traits are not already there,
      with 1 standing in for none, so never 0. */
  function CountTraitChoices(pool: set<string>, already: set<string>): (n: nat)
    ensures n >= 1
    ensures pool - already != {} ==> n == |pool - already|
    ensures pool <= already ==> n == 1
  {
    if |pool - already| == 0 then 1 else |pool - already|
  }

  /** A where-predicate whose bounded type is the bare identifier `t`. */
  predicate Constrains(p: WherePred, t: string) {
    p.TypePred? && TyIdent(p.bounded) == Some(t)
  }

  /** The single-identifier traits that where-predicates put on `t`. */
  function WhereBounds(preds: seq<WherePred>, t: string): set<string> {
    if preds == [] then {}
    else
      var p := preds[|preds| - 1];
      WhereBounds(preds[..|preds| - 1], t) + (if Constrains(p, t) then BoundTraits(p.bounds) else {})
  }

  /** The traits implemented by the type named `ty` per the impl edges. */
  function EdgeTraits(edges: seq<(string, string)>, ty: string): set<string> {
    set p | p in edges && p.0 == ty :: p.1
  }

  /** A type parameter's share of an impl site's choices: the custom traits
      not yet bounding it in the where-clause. */
  function ParamChoices(custom: set<string>, preds: seq<WherePred>): GenericParam -> nat {
    (p: GenericParam) => if p.TypeParam? then CountTraitChoices(custom, WhereBounds(preds, p.name)) else 0
  }

  /** An impl site's choices: the type parameters' shares, plus, when the
      self type is a bare identifier, the custom and impl-edge traits not
      yet bounding it; 1 when nothing was countable. */
  function WhereSiteChoices(g: Generics, selfTy: Ty, custom: set<string>, edges: seq<(string, string)>): (n: nat)
    ensures n >= 1
  {
    var selfShare :=
      match TyIdent(selfTy)
      case Some(s) => CountTraitChoices(custom + EdgeTraits(edges, s), WhereBounds(g.preds, s))
      case None => 0;
    var total := SumOf(g.params, ParamChoices(custom, g.preds)) + selfShare;
    if total == 0 then 1 else total
  }

  /** The number of choices a site offers given the custom traits of the
      file and its impl edges. */
  function Choices(site: Site, custom: set<string>, edges: seq<(string, string)>): (n: nat)
    ensures n >= 1
  {
    match site
    case SupertraitSite(n, sup) => CountTraitChoices(custom, BoundTraits(sup) + {n})
    case WhereSite(g, selfTy) => WhereSiteChoices(g, selfTy, custom, edges)
    case GenericSite(_, b) => CountTraitChoices(custom, BoundTraits(b))
    case AssocBoundSite(_, b) => CountTraitChoices(custom, BoundTraits(b))
  }

  function ChoicesAt(custom: set<string>, edges: seq<(string, string)>): Site -> nat {
    (site: Site) => Choices(site, custom, edges)
  }

  datatype ChoiceMetrics = ChoiceMetrics(constraintSites: nat, constraintChoiceSum: nat)

  /** `where_bound_map`: for each bare-identifier type bounded in the
      where-clause, the single-identifier traits bounding it. Other
      predicates are skipped; an entry exists even when none of its bounds
      is a single identifier. */
  method WhereBoundMap(preds: seq<WherePred>) returns (m: map<string, set<string>>)
    ensures forall t :: t in m <==> exists j :: 0 <= j < |preds| && Constrains(preds[j], t)
    ensures forall t :: t in m ==> m[t] == WhereBounds(preds, t)
    ensures forall t :: t !in m ==> WhereBounds(preds, t) == {}
  {
    m := map[];
    for k := 0 to |preds|
      invariant forall t :: t in m <==> exists j :: 0 <= j < k && Constrains(preds[j], t)
      invariant forall t :: t in m ==> m[t] == WhereBounds(preds[..k], t)
      invariant forall t :: t !in m ==> WhereBounds(preds[..k], t) == {}
    {
      assert preds[..k + 1][..k] == preds[..k];
      var p := preds[k];
      if p.TypePred? && TyIdent(p.bounded).Some? {
        var t := TyIdent(p.bounded).value;
        var entry := if t in m then m[t] else {};
        m := m[t := entry + BoundTraits(p.bounds)];
      }
    }
    assert preds[..|preds|] == preds;
  }

  /** `impl_edge_traits_by_self`: for each implementing type, the traits
      the impl edges give it. */
  method EdgeTraitsBySelf(edges: seq<(string, string)>) returns (m: map<string, set<string>>)
    ensures forall ty :: ty in m ==> m[ty] == EdgeTraits(edges, ty)
    ensures forall ty :: ty !in m ==> EdgeTraits(edges, ty) == {}
  {
    m := map[];
    for k := 0 to |edges|
      invariant forall ty :: ty in m ==> m[ty] == EdgeTraits(edges[..k], ty)
      invariant forall ty :: ty !in m ==> EdgeTraits(edges[..k], ty) == {}
    {
      var (ty, tr) := edges[k];
      assert forall p :: p in edges[..k + 1] <==> p in edges[..k] || p == edges[k] by {
        assert edges[..k + 1] == edges[..k] + [edges[k]];
      }
      var entry := if ty in m then m[ty] else {};
      m := m[ty := entry + {tr}];
    }
    assert edges[..|edges|] == edges;
  }

  /** The metrics after counting `sites` on top of `m`. */
  function Counted(m: ChoiceMetrics, sites: seq<Site>, custom: set<string>, edges: seq<(string, string)>): ChoiceMetrics {
    ChoiceMetrics(m.constraintSites + |sites|, m.constraintChoiceSum + SumOf(sites, ChoicesAt(custom, edges)))
  }

  lemma CountedAppend(m: ChoiceMetrics, a: seq<Site>, b: seq<Site>, custom: set<string>, edges: seq<(string, string)>)
    ensures Counted(Counted(m, a, custom, edges), b, custom, edges) == Counted(m, a + b, custom, edges)
  {
    SumOfAppend(a, b, ChoicesAt(custom, edges));
  }

  /** One site counted on top of `m`. */
  lemma CountedOne(m: ChoiceMetrics, site: Site, custom: set<string>, edges: seq<(string, string)>)
    ensures Counted(m, [site], custom, edges)
         == ChoiceMetrics(m.constraintSites + 1, m.constraintChoiceSum + Choices(site, custom, edges))
  {
    var f := ChoicesAt(custom, edges);
    assert [site][..0] == [];
    assert SumOf([site], f) == f(site);
    assert f(site) == Choices(site, custom, edges);
  }

  /** The visitor's `visit_generic_param` over a parameter list. */
  method VisitParams(m: ChoiceMetrics, ps: seq<GenericParam>, custom: set<string>, ghost edges: seq<(string, string)>)
    returns (r: ChoiceMetrics)
    ensures r == Counted(m, ParamSites(ps), custom, edges)
  {
    r := m;
    for k := 0 to |ps|
      invariant r == Counted(m, FlatMap(ps[..k], ParamSite), custom, edges)
    {
      FlatMapStep(ps, ParamSite, k);
      CountedAppend(m, FlatMap(ps[..k], ParamSite), ParamSite(ps[k]), custom, edges);
      match ps[k] {
        case TypeParam(name, bounds) =>
          assert ParamSite(ps[k]) == [GenericSite(name, bounds)];
          CountedOne(r, GenericSite(name, bounds), custom, edges);
          r := ChoiceMetrics(r.constraintSites + 1, r.constraintChoiceSum + CountTraitChoices(custom, BoundTraits(bounds)));
        case LifetimeParam(_, _) =>
          assert ParamSite(ps[k]) == [];
        case ConstParam(_) =>
          assert ParamSite(ps[k]) == [];
      }
    }
    assert ps[..|ps|] == ps;
  }

  /** The type parameters' shares of an impl site's choices. */
  method ParamsChoices(g: Generics, custom: set<string>, whereBounds: map<string, set<string>>) returns (total: nat)
    requires forall t :: t in whereBounds ==> whereBounds[t] == WhereBounds(g.preds, t)
    requires forall t :: t !in whereBounds ==> WhereBounds(g.preds, t) == {}
    ensures total == SumOf(g.params, ParamChoices(custom, g.preds))
  {
    total := 0;
    for k := 0 to |g.params|
      invariant total == SumOf(g.params[..k], ParamChoices(custom, g.preds))
    {
      SumOfStep(g.params, ParamChoices(custom, g.preds), k);
      var p := g.params[k];
      if p.TypeParam? {
        var already := if p.name in whereBounds then whereBounds[p.name] else {};
        total := total + CountTraitChoices(custom, already);
      }
    }
    assert g.params[..|g.params|] == g.params;
  }

  /** The choices of an impl site, computed as the visitor does with the
      where-bound map and the impl-edge map. */
  method ImplSiteChoices(g: Generics, selfTy: Ty, custom: set<string>, bySelf: map<string, set<string>>,
                         ghost edges: seq<(string, string)>)
    returns (n: nat)
    requires forall ty :: ty in bySelf ==> bySelf[ty] == EdgeTraits(edges, ty)
    requires forall ty :: ty !in bySelf ==> EdgeTraits(edges, ty) == {}
    ensures n == WhereSiteChoices(g, selfTy, custom, edges)
  {
    var whereBounds := WhereBoundMap(g.preds);
    var total := ParamsChoices(g, custom, whereBounds);
    match TyIdent(selfTy) {
      case Some(s) =>
        var pool := custom + (if s in bySelf then bySelf[s] else {});
        var already := if s in whereBounds then whereBounds[s] else {};
        total := total + CountTraitChoices(pool, already);
      case None =>
    }
    n := if total == 0 then 1 else total;
  }

  /** `visit_item_trait` on the members: an associated type is a site of
      its own; a method contributes its type parameters. */
  method VisitTraitMembers(m: ChoiceMetrics, ms: seq<TraitMember>, custom: set<string>, ghost edges: seq<(string, string)>)
    returns (r: ChoiceMetrics)
    ensures r == Counted(m, FlatMap(ms, TraitMemberSites), custom, edges)
  {
    r := m;
    for k := 0 to |ms|
      invariant r == Counted(m, FlatMap(ms[..k], TraitMemberSites), custom, edges)
    {
      FlatMapStep(ms, TraitMemberSites, k);
      CountedAppend(m, FlatMap(ms[..k], TraitMemberSites), TraitMemberSites(ms[k]), custom, edges);
      match ms[k] {
        case AssocType(n, _, b, _) =>
          CountedOne(r, AssocBoundSite(n, b), custom, edges);
          r := ChoiceMetrics(r.constraintSites + 1, r.constraintChoiceSum + CountTraitChoices(custom, BoundTraits(b)));
        case Method(sig, _) =>
          r := VisitParams(r, sig.generics.params, custom, edges);
        case AssocConst(_, _, _) =>
          assert TraitMemberSites(ms[k]) == [];
        case OtherTraitMember(_) =>
          assert TraitMemberSites(ms[k]) == [];
      }
    }
    assert ms[..|ms|] == ms;
  }

  /** `visit_item_impl` on the members: the type parameters of associated
      types and methods. */
  method VisitImplMembers(m: ChoiceMetrics, ms: seq<ImplMember>, custom: set<string>, ghost edges: seq<(string, string)>)
    returns (r: ChoiceMetrics)
    ensures r == Counted(m, FlatMap(ms, ImplMemberSites), custom, edges)
  {
    r := m;
    for k := 0 to |ms|
      invariant r == Counted(m, FlatMap(ms[..k], ImplMemberSites), custom, edges)
    {
      FlatMapStep(ms, ImplMemberSites, k);
      CountedAppend(m, FlatMap(ms[..k], ImplMemberSites), ImplMemberSites(ms[k]), custom, edges);
      match ms[k] {
        case AssocTypeDef(_, g, _) =>
          r := VisitParams(r, g.params, custom, edges);
        case MethodDef(sig, _) =>
          r := VisitParams(r, sig.generics.params, custom, edges);
        case ConstDef(_, _, _) =>
          assert ImplMemberSites(ms[k]) == [];
        case OtherImplMember(_) =>
          assert ImplMemberSites(ms[k]) == [];
      }
    }
    assert ms[..|ms|] == ms;
  }

  /** `visit_item_trait`: the supertrait site, then the trait's type
      parameters and members. */
  method VisitTraitMetrics(m: ChoiceMetrics, it: Item, custom: set<string>, ghost edges: seq<(string, string)>)
    returns (r: ChoiceMetrics)
    requires it.TraitDef?
    ensures r == Counted(m, ItemSites(it), custom, edges)
  {
    var site := SupertraitSite(it.name, it.supertraits);
    CountedOne(m, site, custom, edges);
    r := ChoiceMetrics(m.constraintSites + 1,
                       m.constraintChoiceSum + CountTraitChoices(custom, BoundTraits(it.supertraits) + {it.name}));
    r := VisitParams(r, it.generics.params, custom, edges);
    r := VisitTraitMembers(r, it.members, custom, edges);
    CountedAppend(m, [site], ParamSites(it.generics.params), custom, edges);
    CountedAppend(m, [site] + ParamSites(it.generics.params), FlatMap(it.members, TraitMemberSites), custom, edges);
  }

  /** `visit_item_impl`: the where-clause site, then the impl's type
      parameters and members. */
  method VisitImplMetrics(m: ChoiceMetrics, it: Item, custom: set<string>, bySelf: map<string, set<string>>,
                          ghost edges: seq<(string, string)>)
    returns (r: ChoiceMetrics)
    requires it.ImplDef?
    requires forall ty :: ty in bySelf ==> bySelf[ty] == EdgeTraits(edges, ty)
    requires forall ty :: ty !in bySelf ==> EdgeTraits(edges, ty) == {}
    ensures r == Counted(m, ItemSites(it), custom, edges)
  {
    var site := WhereSite(it.generics, it.selfTy);
    var choices := ImplSiteChoices(it.generics, it.selfTy, custom, bySelf, edges);
    CountedOne(m, site, custom, edges);
    r := ChoiceMetrics(m.constraintSites + 1, m.constraintChoiceSum + choices);
    r := VisitParams(r, it.generics.params, custom, edges);
    r := VisitImplMembers(r, it.implMembers, custom, edges);
    CountedAppend(m, [site], ParamSites(it.generics.params), custom, edges);
    CountedAppend(m, [site] + ParamSites(it.generics.params), FlatMap(it.implMembers, ImplMemberSites), custom, edges);
  }

  /** The metrics visitor on one item. */
  method VisitItemMetrics(m: ChoiceMetrics, it: Item, custom: set<string>, bySelf: map<string, set<string>>,
                          ghost edges: seq<(string, string)>)
    returns (r: ChoiceMetrics)
    requires forall ty :: ty in bySelf ==> bySelf[ty] == EdgeTraits(edges, ty)
    requires forall ty :: ty !in bySelf ==> EdgeTraits(edges, ty) == {}
    ensures r == Counted(m, ItemSites(it), custom, edges)
  {
    match it {
      case TraitDef(_, _, _, _) =>
        r := VisitTraitMetrics(m, it, custom, edges);
      case ImplDef(_, _, _, _) =>
        r := VisitImplMetrics(m, it, custom, bySelf, edges);
      case StructDef(_, g, _) =>
        r := VisitParams(m, g.params, custom, edges);
      case EnumDef(_, g, _) =>
        r := VisitParams(m, g.params, custom, edges);
      case FnDef(sig, _) =>
        r := VisitParams(m, sig.generics.params, custom, edges);
      case OtherItem(_) =>
        r := m;
    }
  }

  /** The custom traits of a file: those it declares. */
  ghost function CustomTraits(file: File): set<string> {
    set n | n in RawInfo(file).traits
  }

  /** `ConstraintChoiceMetrics::from_file`: one site per trait, impl, type
      parameter and trait associated type, each with its number of
      choices; every site offers at least one, so the choice sum is at
      least the number of sites. */
  method ConstraintChoiceMetricsOf(file: File) returns (metrics: ChoiceMetrics)
    ensures metrics.constraintSites == |ConstraintSites(file)|
    ensures metrics.constraintChoiceSum
         == SumOf(ConstraintSites(file), ChoicesAt(CustomTraits(file), RawInfo(file).implEdges))
    ensures metrics.constraintChoiceSum >= metrics.constraintSites
  {
    var info := FromFile(file);
    var custom := set n | n in info.traits;
    assert custom == CustomTraits(file);
    ghost var edges := RawInfo(file).implEdges;
    var bySelf := EdgeTraitsBySelf(info.implEdges);
    assert forall ty :: EdgeTraits(info.implEdges, ty) == EdgeTraits(edges, ty);
    metrics := ChoiceMetrics(0, 0);
    for k := 0 to |file|
      invariant metrics == Counted(ChoiceMetrics(0, 0), FlatMap(file[..k], ItemSites), custom, edges)
    {
      FlatMapStep(file, ItemSites, k);
      CountedAppend(ChoiceMetrics(0, 0), FlatMap(file[..k], ItemSites), ItemSites(file[k]), custom, edges);
      metrics := VisitItemMetrics(metrics, file[k], custom, bySelf, edges);
    }
    assert file[..|file|] == file;
    SumOfAtLeastLength(ConstraintSites(file), ChoicesAt(custom, edges));
  }
}
