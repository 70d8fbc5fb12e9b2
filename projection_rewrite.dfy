/** Projection rewriting (the third mutation): a path type whose token text
    is the right-hand side of some `type Assoc = Rhs;` binding of a trait
    impl is replaced by that binding's projection `<Self as Trait>::Assoc`.
    This module holds the replacement map, the filter that keeps a binding
    from being rewritten to its own projection, the order in which the
    visitors meet types, and the one-site rewrite as functions. */
module ProjectionRewrite {
  import opened Wrappers
  import opened Syntax
  import opened Ttdn

  // ---------------------------------------------------------------------
  // The replacement map

  /** A replacement: the projection type and the binding it names. */
  datatype Candidate = Candidate(ty: Ty, selfTy: string, traitName: string, assoc: string)

  /** `<SelfTy as Trait>::Assoc` for a binding. */
  function Projection(b: Binding): (c: Candidate)
    ensures c.ty.QSelfTy? && c.selfTy == b.selfTy && c.traitName == b.traitName && c.assoc == b.assoc
  {
    Candidate(QSelfTy(IdentTy(b.selfTy), b.traitName, b.assoc), b.selfTy, b.traitName, b.assoc)
  }

  /** The candidates filed under `key`: the projections of the bindings
      whose right-hand side has that token text, in binding order. */
  function CandidatesFor(bs: seq<Binding>, key: string): seq<Candidate> {
    if bs == [] then []
    else
      var b := bs[|bs| - 1];
      CandidatesFor(bs[..|bs| - 1], key) + (if Tokens(b.rhs) == key then [Projection(b)] else [])
  }

  lemma {:induction false} CandidatesForMembers(bs: seq<Binding>, key: string, c: Candidate)
    ensures c in CandidatesFor(bs, key) <==> exists b :: b in bs && Tokens(b.rhs) == key && c == Projection(b)
    decreases |bs|
  {
    if bs != [] {
      var n := |bs| - 1;
      CandidatesForMembers(bs[..n], key, c);
      assert bs == bs[..n] + [bs[n]];
      if c in CandidatesFor(bs, key) && c !in CandidatesFor(bs[..n], key) {
        assert bs[n] in bs;
      }
      if exists b :: b in bs && Tokens(b.rhs) == key && c == Projection(b) {
        var b :| b in bs && Tokens(b.rhs) == key && c == Projection(b);
        if b !in bs[..n] {
          assert b == bs[n];
        }
      }
    }
  }

  /** `m` files, under every key, exactly the candidates of that key. */
  ghost predicate MapOf(bs: seq<Binding>, m: map<string, seq<Candidate>>) {
    (forall key :: key in m <==> CandidatesFor(bs, key) != []) &&
    (forall key :: key in m ==> m[key] == CandidatesFor(bs, key))
  }

  /** `build_replacement_map`: one pass over the bindings, appending each
      binding's projection under the token text of its right-hand side. */
  method BuildReplacementMap(bs: seq<Binding>) returns (m: map<string, seq<Candidate>>)
    ensures MapOf(bs, m)
  {
    m := map[];
    for i := 0 to |bs|
      invariant MapOf(bs[..i], m)
    {
      assert bs[..i + 1][..i] == bs[..i];
      var key := Tokens(bs[i].rhs);
      var old_ := if key in m then m[key] else [];
      m := m[key := old_ + [Projection(bs[i])]];
    }
    assert bs[..|bs|] == bs;
  }

  /** The map sends the right-hand side of every binding to a list holding
      that binding's projection, and holds nothing else. */
  lemma MapHoldsExactlyProjections(bs: seq<Binding>, m: map<string, seq<Candidate>>, key: string, c: Candidate)
    requires MapOf(bs, m)
    ensures (key in m && c in m[key]) <==> exists b :: b in bs && Tokens(b.rhs) == key && c == Projection(b)
  {
    CandidatesForMembers(bs, key, c);
  }

  /** Every candidate of `m` is a projection naming its own binding. */
  ghost predicate ProjectionsOnly(m: map<string, seq<Candidate>>) {
    forall key, c :: key in m && c in m[key] ==> c.ty == QSelfTy(IdentTy(c.selfTy), c.traitName, c.assoc)
  }

  lemma MapOfProjections(bs: seq<Binding>, m: map<string, seq<Candidate>>)
    requires MapOf(bs, m)
    ensures ProjectionsOnly(m)
  {
    forall key, c | key in m && c in m[key]
      ensures c.ty == QSelfTy(IdentTy(c.selfTy), c.traitName, c.assoc)
    {
      CandidatesForMembers(bs, key, c);
    }
  }

  // ---------------------------------------------------------------------
  // The visiting context and the candidate filter

  /** The `current_impl_self`, `current_impl_trait` and
      `current_impl_assoc` fields of the visitors. */
  datatype Ctx = Ctx(selfTy: Option<string>, traitName: Option<string>, assoc: Option<string>)

  const NoCtx := Ctx(None, None, None)

  /** The candidate is the binding being visited: same self type, trait
      and associated type. */
  predicate OwnBinding(c: Candidate, ctx: Ctx) {
    ctx.selfTy == Some(c.selfTy) && ctx.traitName == Some(c.traitName) && ctx.assoc == Some(c.assoc)
  }

  /** The candidates that are not the binding being visited, in order. */
  function Filtered(cands: seq<Candidate>, ctx: Ctx): (r: seq<Candidate>)
    ensures forall c :: c in r <==> c in cands && !OwnBinding(c, ctx)
    ensures |r| <= |cands|
  {
    if cands == [] then []
    else
      var c := cands[|cands| - 1];
      Filtered(cands[..|cands| - 1], ctx) + (if OwnBinding(c, ctx) then [] else [c])
  }

  /** The context inside an impl: `impl Trait for SelfTy` with both bare
      identifiers sets the self type and the trait; any other impl leaves
      the outer context as it is. */
  function ImplCtx(it: Item, outer: Ctx): (c: Ctx)
    requires it.ImplDef?
    ensures c.assoc == outer.assoc
    ensures ImplEdge(it).Some? ==> c.selfTy == Some(ImplEdge(it).value.0) && c.traitName == Some(ImplEdge(it).value.1)
    ensures ImplEdge(it).None? ==> c == outer
  {
    match ImplEdge(it)
    case Some((ty, tr)) => Ctx(Some(ty), Some(tr), outer.assoc)
    case None => outer
  }

  // ---------------------------------------------------------------------
  // The order in which the visitors meet types

  /** A type as the visitor meets it, with the context it meets it in. */
  type Occurrence = (Ty, Ctx)

  /** A type, then the types inside it, in preorder; a const generic
      argument is an expression, not a type. */
  function TyOcc(t: Ty, ctx: Ctx): seq<Occurrence>
    decreases t
  {
    match t
    case PathTy(_, args) => [(t, ctx)] + TysOcc(args, ctx)
    case QSelfTy(q, _, _) => [(t, ctx)] + TyOcc(q, ctx)
    case RefTy(_, _, e) => [(t, ctx)] + TyOcc(e, ctx)
    case OtherTy(_, es) => [(t, ctx)] + TysOcc(es, ctx)
    case ConstArg(_) => []
  }

  function TysOcc(ts: seq<Ty>, ctx: Ctx): seq<Occurrence>
    decreases ts
  {
    if ts == [] then [] else TyOcc(ts[0], ctx) + TysOcc(ts[1..], ctx)
  }

  function OptTyOcc(t: Option<Ty>, ctx: Ctx): seq<Occurrence> {
    if t.Some? then TyOcc(t.value, ctx) else []
  }

  /** Of a where-predicate only the bounded type of a type predicate is
      modelled as a type. */
  function PredOcc(p: WherePred, ctx: Ctx): seq<Occurrence> {
    if p.TypePred? then TyOcc(p.bounded, ctx) else []
  }

  function PredsOcc(ps: seq<WherePred>, ctx: Ctx): seq<Occurrence> {
    if ps == [] then [] else PredOcc(ps[0], ctx) + PredsOcc(ps[1..], ctx)
  }

  function ArgOcc(a: FnArg, ctx: Ctx): seq<Occurrence> {
    if a.Typed? then TyOcc(a.ty, ctx) else []
  }

  function ArgsOcc(args: seq<FnArg>, ctx: Ctx): seq<Occurrence> {
    if args == [] then [] else ArgOcc(args[0], ctx) + ArgsOcc(args[1..], ctx)
  }

  /** A signature: its where-clause, its arguments, its return type. */
  function SigOcc(sig: Signature, ctx: Ctx): seq<Occurrence> {
    PredsOcc(sig.generics.preds, ctx) + ArgsOcc(sig.inputs, ctx) + OptTyOcc(sig.output, ctx)
  }

  function TraitMemberOcc(m: TraitMember, ctx: Ctx): seq<Occurrence> {
    match m
    case AssocType(_, g, _, d) => PredsOcc(g.preds, ctx) + OptTyOcc(d, ctx)
    case AssocConst(_, ty, _) => TyOcc(ty, ctx)
    case Method(sig, _) => SigOcc(sig, ctx)
    case OtherTraitMember(_) => []
  }

  function TraitMembersOcc(ms: seq<TraitMember>, ctx: Ctx): seq<Occurrence> {
    if ms == [] then [] else TraitMemberOcc(ms[0], ctx) + TraitMembersOcc(ms[1..], ctx)
  }

  /** The context inside `type Assoc = …;` of an impl names `Assoc`. */
  function AssocCtx(ctx: Ctx, name: string): Ctx {
    ctx.(assoc := Some(name))
  }

  function ImplMemberOcc(m: ImplMember, ctx: Ctx): seq<Occurrence> {
    match m
    case AssocTypeDef(n, g, ty) => PredsOcc(g.preds, AssocCtx(ctx, n)) + TyOcc(ty, AssocCtx(ctx, n))
    case ConstDef(_, ty, _) => TyOcc(ty, ctx)
    case MethodDef(sig, _) => SigOcc(sig, ctx)
    case OtherImplMember(_) => []
  }

  function ImplMembersOcc(ms: seq<ImplMember>, ctx: Ctx): seq<Occurrence> {
    if ms == [] then [] else ImplMemberOcc(ms[0], ctx) + ImplMembersOcc(ms[1..], ctx)
  }

  function TraitArgs(tr: Option<TraitRef>): seq<Ty> {
    if tr.Some? then tr.value.args else []
  }

  /** An item's types: the where-clause first, then fields, signature,
      members; an impl's trait arguments and self type come before its
      members, all in the impl's context. */
  function ItemOcc(it: Item, ctx: Ctx): seq<Occurrence> {
    match it
    case StructDef(_, g, fs) => PredsOcc(g.preds, ctx) + TysOcc(fs, ctx)
    case EnumDef(_, g, fs) => PredsOcc(g.preds, ctx) + TysOcc(fs, ctx)
    case FnDef(sig, _) => SigOcc(sig, ctx)
    case TraitDef(_, g, _, ms) => PredsOcc(g.preds, ctx) + TraitMembersOcc(ms, ctx)
    case ImplDef(_, _, _, _) => ImplOcc(it, ImplCtx(it, ctx))
    case OtherItem(_) => []
  }

  /** An impl block's types, met under the impl's own context `c`. */
  function ImplOcc(it: Item, c: Ctx): seq<Occurrence>
    requires it.ImplDef?
  {
    PredsOcc(it.generics.preds, c) + TysOcc(TraitArgs(it.traitRef), c) + TyOcc(it.selfTy, c)
    + ImplMembersOcc(it.implMembers, c)
  }

  function ItemsOcc(items: seq<Item>, ctx: Ctx): seq<Occurrence> {
    if items == [] then [] else ItemOcc(items[0], ctx) + ItemsOcc(items[1..], ctx)
  }

  /** Every type of the file, in visiting order. */
  function FileOcc(file: File): seq<Occurrence> {
    ItemsOcc(file, NoCtx)
  }

  // ---------------------------------------------------------------------
  // Sites

  /** How the applier's counter advances: on every type found in the map
      (`EveryMatch`, the applier as written) or only on the types that
      have a candidate left after filtering (`OpenOnly`, the collectors'
      numbering). */
  datatype Counting = EveryMatch | OpenOnly

  /** What a rewrite needs besides the file: the map, the number the
      local index is drawn from, and the counting rule. */
  datatype Env = Env(replacements: map<string, seq<Candidate>>, draw: nat, counting: Counting)

  /** Only a path type without a qualified self is ever looked up. */
  predicate Matches(t: Ty, m: map<string, seq<Candidate>>) {
    t.PathTy? && Tokens(t) in m
  }

  function FilteredAt(t: Ty, ctx: Ctx, m: map<string, seq<Candidate>>): seq<Candidate>
    requires Matches(t, m)
  {
    Filtered(m[Tokens(t)], ctx)
  }

  /** A rewrite site: a path type in the map with a candidate that is not
      the binding being visited. */
  predicate Open(t: Ty, ctx: Ctx, m: map<string, seq<Candidate>>) {
    Matches(t, m) && FilteredAt(t, ctx, m) != []
  }

  predicate Counted(t: Ty, ctx: Ctx, env: Env) {
    Matches(t, env.replacements) && (env.counting == EveryMatch || Open(t, ctx, env.replacements))
  }

  /** The number of counted types among `os`. */
  function Count(os: seq<Occurrence>, env: Env): nat {
    if os == [] then 0
    else Count(os[..|os| - 1], env) + (if Counted(os[|os| - 1].0, os[|os| - 1].1, env) then 1 else 0)
  }

  lemma {:induction false} CountAppend(a: seq<Occurrence>, b: seq<Occurrence>, env: Env)
    ensures Count(a + b, env) == Count(a, env) + Count(b, env)
    decreases |b|
  {
    if b == [] {
      assert a + b == a;
    } else {
      var n := |b| - 1;
      CountAppend(a, b[..n], env);
      assert (a + b)[..|a + b| - 1] == a + b[..n];
    }
  }

  lemma CountOne(o: Occurrence, env: Env)
    ensures Count([o], env) == if Counted(o.0, o.1, env) then 1 else 0
  {
    assert [o][..0] == [];
  }

  /** The candidate chosen at a site: the drawn number modulo the number
      of filtered candidates. */
  function Chosen(t: Ty, ctx: Ctx, env: Env): (r: Ty)
    requires Open(t, ctx, env.replacements)
    ensures exists c :: c in FilteredAt(t, ctx, env.replacements) && r == c.ty && !OwnBinding(c, ctx)
    ensures ProjectionsOnly(env.replacements) ==> r.QSelfTy? && r != t
  {
    var f := FilteredAt(t, ctx, env.replacements);
    assert f[env.draw % |f|] in f && f[env.draw % |f|] in env.replacements[Tokens(t)];
    f[env.draw % |f|].ty
  }

  // ---------------------------------------------------------------------
  // The number of counted types, level by level

  function TySites(t: Ty, ctx: Ctx, env: Env): nat
    decreases t
  {
    (if Counted(t, ctx, env) then 1 else 0) +
    match t
    case PathTy(_, args) => TysSites(args, ctx, env)
    case QSelfTy(q, _, _) => TySites(q, ctx, env)
    case RefTy(_, _, e) => TySites(e, ctx, env)
    case OtherTy(_, es) => TysSites(es, ctx, env)
    case ConstArg(_) => 0
  }

  function TysSites(ts: seq<Ty>, ctx: Ctx, env: Env): nat
    decreases ts
  {
    if ts == [] then 0 else TySites(ts[0], ctx, env) + TysSites(ts[1..], ctx, env)
  }

  function OptTySites(t: Option<Ty>, ctx: Ctx, env: Env): nat {
    if t.Some? then TySites(t.value, ctx, env) else 0
  }

  function PredSites(p: WherePred, ctx: Ctx, env: Env): nat {
    if p.TypePred? then TySites(p.bounded, ctx, env) else 0
  }

  function PredsSites(ps: seq<WherePred>, ctx: Ctx, env: Env): nat {
    if ps == [] then 0 else PredSites(ps[0], ctx, env) + PredsSites(ps[1..], ctx, env)
  }

  function ArgSites(a: FnArg, ctx: Ctx, env: Env): nat {
    if a.Typed? then TySites(a.ty, ctx, env) else 0
  }

  function ArgsSites(args: seq<FnArg>, ctx: Ctx, env: Env): nat {
    if args == [] then 0 else ArgSites(args[0], ctx, env) + ArgsSites(args[1..], ctx, env)
  }

  function SigSites(sig: Signature, ctx: Ctx, env: Env): nat {
    PredsSites(sig.generics.preds, ctx, env) + ArgsSites(sig.inputs, ctx, env) + OptTySites(sig.output, ctx, env)
  }

  function TraitMemberSites(m: TraitMember, ctx: Ctx, env: Env): nat {
    match m
    case AssocType(_, g, _, d) => PredsSites(g.preds, ctx, env) + OptTySites(d, ctx, env)
    case AssocConst(_, ty, _) => TySites(ty, ctx, env)
    case Method(sig, _) => SigSites(sig, ctx, env)
    case OtherTraitMember(_) => 0
  }

  function TraitMembersSites(ms: seq<TraitMember>, ctx: Ctx, env: Env): nat {
    if ms == [] then 0 else TraitMemberSites(ms[0], ctx, env) + TraitMembersSites(ms[1..], ctx, env)
  }

  function ImplMemberSites(m: ImplMember, ctx: Ctx, env: Env): nat {
    match m
    case AssocTypeDef(n, g, ty) =>
      PredsSites(g.preds, AssocCtx(ctx, n), env) + TySites(ty, AssocCtx(ctx, n), env)
    case ConstDef(_, ty, _) => TySites(ty, ctx, env)
    case MethodDef(sig, _) => SigSites(sig, ctx, env)
    case OtherImplMember(_) => 0
  }

  function ImplMembersSites(ms: seq<ImplMember>, ctx: Ctx, env: Env): nat {
    if ms == [] then 0 else ImplMemberSites(ms[0], ctx, env) + ImplMembersSites(ms[1..], ctx, env)
  }

  function ImplSites(it: Item, c: Ctx, env: Env): nat
    requires it.ImplDef?
  {
    PredsSites(it.generics.preds, c, env) + TysSites(TraitArgs(it.traitRef), c, env)
    + TySites(it.selfTy, c, env) + ImplMembersSites(it.implMembers, c, env)
  }

  function ItemSites(it: Item, ctx: Ctx, env: Env): nat {
    match it
    case StructDef(_, g, fs) => PredsSites(g.preds, ctx, env) + TysSites(fs, ctx, env)
    case EnumDef(_, g, fs) => PredsSites(g.preds, ctx, env) + TysSites(fs, ctx, env)
    case FnDef(sig, _) => SigSites(sig, ctx, env)
    case TraitDef(_, g, _, ms) => PredsSites(g.preds, ctx, env) + TraitMembersSites(ms, ctx, env)
    case ImplDef(_, _, _, _) => ImplSites(it, ImplCtx(it, ctx), env)
    case OtherItem(_) => 0
  }

  function ItemsSites(items: seq<Item>, ctx: Ctx, env: Env): nat {
    if items == [] then 0 else ItemSites(items[0], ctx, env) + ItemsSites(items[1..], ctx, env)
  }

  // ---------------------------------------------------------------------
  // The rewrite: the site the counter reaches at `l` is replaced

  /** The types of `t` in preorder, the counter starting `l` below the
      target: the type reached when it hits 0 is replaced by its chosen
      candidate (a counted type with nothing left after filtering is
      skipped without a change); everything else stays. */
  function RewriteTy(t: Ty, l: int, ctx: Ctx, env: Env): Ty
    decreases t
  {
    if l < 0 || l >= TySites(t, ctx, env) then t
    else if Counted(t, ctx, env) && l == 0 then
      if Open(t, ctx, env.replacements) then Chosen(t, ctx, env) else t
    else
      var l' := if Counted(t, ctx, env) then l - 1 else l;
      match t
      case PathTy(s, args) => PathTy(s, RewriteTys(args, l', ctx, env))
      case QSelfTy(q, tr, a) => QSelfTy(RewriteTy(q, l', ctx, env), tr, a)
      case RefTy(lt, mu, e) => RefTy(lt, mu, RewriteTy(e, l', ctx, env))
      case OtherTy(k, es) => OtherTy(k, RewriteTys(es, l', ctx, env))
      case ConstArg(_) => t
  }

  function RewriteTys(ts: seq<Ty>, l: int, ctx: Ctx, env: Env): (r: seq<Ty>)
    ensures |r| == |ts|
    decreases ts
  {
    if l < 0 || l >= TysSites(ts, ctx, env) then ts
    else [RewriteTy(ts[0], l, ctx, env)] + RewriteTys(ts[1..], l - TySites(ts[0], ctx, env), ctx, env)
  }

  function RewriteOptTy(t: Option<Ty>, l: int, ctx: Ctx, env: Env): Option<Ty> {
    if t.Some? then Some(RewriteTy(t.value, l, ctx, env)) else t
  }

  function RewritePred(p: WherePred, l: int, ctx: Ctx, env: Env): WherePred {
    if p.TypePred? then TypePred(RewriteTy(p.bounded, l, ctx, env), p.bounds) else p
  }

  function RewritePreds(ps: seq<WherePred>, l: int, ctx: Ctx, env: Env): seq<WherePred> {
    if l < 0 || l >= PredsSites(ps, ctx, env) then ps
    else [RewritePred(ps[0], l, ctx, env)] + RewritePreds(ps[1..], l - PredSites(ps[0], ctx, env), ctx, env)
  }

  function RewriteArg(a: FnArg, l: int, ctx: Ctx, env: Env): FnArg {
    if a.Typed? then Typed(RewriteTy(a.ty, l, ctx, env)) else a
  }

  function RewriteArgs(args: seq<FnArg>, l: int, ctx: Ctx, env: Env): seq<FnArg> {
    if l < 0 || l >= ArgsSites(args, ctx, env) then args
    else [RewriteArg(args[0], l, ctx, env)] + RewriteArgs(args[1..], l - ArgSites(args[0], ctx, env), ctx, env)
  }

  function WithPreds(g: Generics, ps: seq<WherePred>): Generics {
    Generics(g.params, ps)
  }

  function RewriteSig(sig: Signature, l: int, ctx: Ctx, env: Env): Signature {
    var n1 := PredsSites(sig.generics.preds, ctx, env);
    var n2 := ArgsSites(sig.inputs, ctx, env);
    Signature(sig.name, WithPreds(sig.generics, RewritePreds(sig.generics.preds, l, ctx, env)),
              RewriteArgs(sig.inputs, l - n1, ctx, env), RewriteOptTy(sig.output, l - n1 - n2, ctx, env))
  }

  function RewriteTraitMember(m: TraitMember, l: int, ctx: Ctx, env: Env): TraitMember {
    match m
    case AssocType(n, g, b, d) =>
      AssocType(n, WithPreds(g, RewritePreds(g.preds, l, ctx, env)), b,
                RewriteOptTy(d, l - PredsSites(g.preds, ctx, env), ctx, env))
    case AssocConst(n, ty, d) => AssocConst(n, RewriteTy(ty, l, ctx, env), d)
    case Method(sig, body) => Method(RewriteSig(sig, l, ctx, env), body)
    case OtherTraitMember(_) => m
  }

  function RewriteTraitMembers(ms: seq<TraitMember>, l: int, ctx: Ctx, env: Env): seq<TraitMember> {
    if l < 0 || l >= TraitMembersSites(ms, ctx, env) then ms
    else [RewriteTraitMember(ms[0], l, ctx, env)]
         + RewriteTraitMembers(ms[1..], l - TraitMemberSites(ms[0], ctx, env), ctx, env)
  }

  function RewriteImplMember(m: ImplMember, l: int, ctx: Ctx, env: Env): ImplMember {
    match m
    case AssocTypeDef(n, g, ty) =>
      var c := AssocCtx(ctx, n);
      AssocTypeDef(n, WithPreds(g, RewritePreds(g.preds, l, c, env)),
                   RewriteTy(ty, l - PredsSites(g.preds, c, env), c, env))
    case ConstDef(n, ty, v) => ConstDef(n, RewriteTy(ty, l, ctx, env), v)
    case MethodDef(sig, body) => MethodDef(RewriteSig(sig, l, ctx, env), body)
    case OtherImplMember(_) => m
  }

  function RewriteImplMembers(ms: seq<ImplMember>, l: int, ctx: Ctx, env: Env): seq<ImplMember> {
    if l < 0 || l >= ImplMembersSites(ms, ctx, env) then ms
    else [RewriteImplMember(ms[0], l, ctx, env)]
         + RewriteImplMembers(ms[1..], l - ImplMemberSites(ms[0], ctx, env), ctx, env)
  }

  function WithTraitArgs(tr: Option<TraitRef>, args: seq<Ty>): Option<TraitRef> {
    if tr.Some? then Some(TraitRef(tr.value.segments, args)) else tr
  }

  /** The rewrite of an impl block under its own context `c`. */
  function RewriteImpl(it: Item, l: int, c: Ctx, env: Env): Item
    requires it.ImplDef?
  {
    var n1 := PredsSites(it.generics.preds, c, env);
    var n2 := TysSites(TraitArgs(it.traitRef), c, env);
    var n3 := TySites(it.selfTy, c, env);
    ImplDef(WithPreds(it.generics, RewritePreds(it.generics.preds, l, c, env)),
            WithTraitArgs(it.traitRef, RewriteTys(TraitArgs(it.traitRef), l - n1, c, env)),
            RewriteTy(it.selfTy, l - n1 - n2, c, env),
            RewriteImplMembers(it.implMembers, l - n1 - n2 - n3, c, env))
  }

  function RewriteItem(it: Item, l: int, ctx: Ctx, env: Env): Item {
    if l < 0 || l >= ItemSites(it, ctx, env) then it
    else match it
      case StructDef(n, g, fs) =>
        StructDef(n, WithPreds(g, RewritePreds(g.preds, l, ctx, env)),
                  RewriteTys(fs, l - PredsSites(g.preds, ctx, env), ctx, env))
      case EnumDef(n, g, fs) =>
        EnumDef(n, WithPreds(g, RewritePreds(g.preds, l, ctx, env)),
                RewriteTys(fs, l - PredsSites(g.preds, ctx, env), ctx, env))
      case FnDef(sig, body) => FnDef(RewriteSig(sig, l, ctx, env), body)
      case TraitDef(n, g, sup, ms) =>
        TraitDef(n, WithPreds(g, RewritePreds(g.preds, l, ctx, env)), sup,
                 RewriteTraitMembers(ms, l - PredsSites(g.preds, ctx, env), ctx, env))
      case ImplDef(_, _, _, _) => RewriteImpl(it, l, ImplCtx(it, ctx), env)
      case OtherItem(_) => it
  }

  function RewriteItems(items: seq<Item>, l: int, ctx: Ctx, env: Env): (r: seq<Item>)
    ensures |r| == |items|
  {
    if l < 0 || l >= ItemsSites(items, ctx, env) then items
    else [RewriteItem(items[0], l, ctx, env)]
         + RewriteItems(items[1..], l - ItemSites(items[0], ctx, env), ctx, env)
  }

  // ---------------------------------------------------------------------
  // The counters agree with the visiting order

  lemma {:induction false} TySitesCount(t: Ty, ctx: Ctx, env: Env)
    ensures TySites(t, ctx, env) == Count(TyOcc(t, ctx), env)
    decreases t
  {
    match t
    case PathTy(_, args) =>
      CountAppend([(t, ctx)], TysOcc(args, ctx), env);
      CountOne((t, ctx), env);
      TysSitesCount(args, ctx, env);
    case QSelfTy(q, _, _) =>
      CountAppend([(t, ctx)], TyOcc(q, ctx), env);
      CountOne((t, ctx), env);
      TySitesCount(q, ctx, env);
    case RefTy(_, _, e) =>
      CountAppend([(t, ctx)], TyOcc(e, ctx), env);
      CountOne((t, ctx), env);
      TySitesCount(e, ctx, env);
    case OtherTy(_, es) =>
      CountAppend([(t, ctx)], TysOcc(es, ctx), env);
      CountOne((t, ctx), env);
      TysSitesCount(es, ctx, env);
    case ConstArg(_) =>
  }

  lemma {:induction false} TysSitesCount(ts: seq<Ty>, ctx: Ctx, env: Env)
    ensures TysSites(ts, ctx, env) == Count(TysOcc(ts, ctx), env)
    decreases ts
  {
    if ts != [] {
      CountAppend(TyOcc(ts[0], ctx), TysOcc(ts[1..], ctx), env);
      TySitesCount(ts[0], ctx, env);
      TysSitesCount(ts[1..], ctx, env);
    }
  }

  lemma OptTySitesCount(t: Option<Ty>, ctx: Ctx, env: Env)
    ensures OptTySites(t, ctx, env) == Count(OptTyOcc(t, ctx), env)
  {
    if t.Some? {
      TySitesCount(t.value, ctx, env);
    }
  }

  lemma {:induction false} PredsSitesCount(ps: seq<WherePred>, ctx: Ctx, env: Env)
    ensures PredsSites(ps, ctx, env) == Count(PredsOcc(ps, ctx), env)
  {
    if ps != [] {
      CountAppend(PredOcc(ps[0], ctx), PredsOcc(ps[1..], ctx), env);
      if ps[0].TypePred? {
        TySitesCount(ps[0].bounded, ctx, env);
      }
      PredsSitesCount(ps[1..], ctx, env);
    }
  }

  lemma {:induction false} ArgsSitesCount(args: seq<FnArg>, ctx: Ctx, env: Env)
    ensures ArgsSites(args, ctx, env) == Count(ArgsOcc(args, ctx), env)
  {
    if args != [] {
      CountAppend(ArgOcc(args[0], ctx), ArgsOcc(args[1..], ctx), env);
      if args[0].Typed? {
        TySitesCount(args[0].ty, ctx, env);
      }
      ArgsSitesCount(args[1..], ctx, env);
    }
  }

  lemma SigSitesCount(sig: Signature, ctx: Ctx, env: Env)
    ensures SigSites(sig, ctx, env) == Count(SigOcc(sig, ctx), env)
  {
    var a, b := PredsOcc(sig.generics.preds, ctx), ArgsOcc(sig.inputs, ctx);
    CountAppend(a, b, env);
    CountAppend(a + b, OptTyOcc(sig.output, ctx), env);
    PredsSitesCount(sig.generics.preds, ctx, env);
    ArgsSitesCount(sig.inputs, ctx, env);
    OptTySitesCount(sig.output, ctx, env);
  }

  lemma {:induction false} TraitMembersSitesCount(ms: seq<TraitMember>, ctx: Ctx, env: Env)
    ensures TraitMembersSites(ms, ctx, env) == Count(TraitMembersOcc(ms, ctx), env)
  {
    if ms != [] {
      CountAppend(TraitMemberOcc(ms[0], ctx), TraitMembersOcc(ms[1..], ctx), env);
      TraitMembersSitesCount(ms[1..], ctx, env);
      match ms[0]
      case AssocType(_, g, _, d) =>
        CountAppend(PredsOcc(g.preds, ctx), OptTyOcc(d, ctx), env);
        PredsSitesCount(g.preds, ctx, env);
        OptTySitesCount(d, ctx, env);
      case AssocConst(_, ty, _) => TySitesCount(ty, ctx, env);
      case Method(sig, _) => SigSitesCount(sig, ctx, env);
      case OtherTraitMember(_) =>
    }
  }

  lemma {:induction false} ImplMembersSitesCount(ms: seq<ImplMember>, ctx: Ctx, env: Env)
    ensures ImplMembersSites(ms, ctx, env) == Count(ImplMembersOcc(ms, ctx), env)
  {
    if ms != [] {
      CountAppend(ImplMemberOcc(ms[0], ctx), ImplMembersOcc(ms[1..], ctx), env);
      ImplMembersSitesCount(ms[1..], ctx, env);
      match ms[0]
      case AssocTypeDef(n, g, ty) =>
        CountAppend(PredsOcc(g.preds, AssocCtx(ctx, n)), TyOcc(ty, AssocCtx(ctx, n)), env);
        PredsSitesCount(g.preds, AssocCtx(ctx, n), env);
        TySitesCount(ty, AssocCtx(ctx, n), env);
      case ConstDef(_, ty, _) => TySitesCount(ty, ctx, env);
      case MethodDef(sig, _) => SigSitesCount(sig, ctx, env);
      case OtherImplMember(_) =>
    }
  }

  lemma ImplSitesCount(it: Item, c: Ctx, env: Env)
    requires it.ImplDef?
    ensures ImplSites(it, c, env) == Count(ImplOcc(it, c), env)
  {
    var a, b, d := PredsOcc(it.generics.preds, c), TysOcc(TraitArgs(it.traitRef), c), TyOcc(it.selfTy, c);
    CountAppend(a, b, env);
    CountAppend(a + b, d, env);
    CountAppend(a + b + d, ImplMembersOcc(it.implMembers, c), env);
    PredsSitesCount(it.generics.preds, c, env);
    TysSitesCount(TraitArgs(it.traitRef), c, env);
    TySitesCount(it.selfTy, c, env);
    ImplMembersSitesCount(it.implMembers, c, env);
  }

  lemma ItemSitesCount(it: Item, ctx: Ctx, env: Env)
    ensures ItemSites(it, ctx, env) == Count(ItemOcc(it, ctx), env)
  {
    match it
    case StructDef(_, g, fs) =>
      CountAppend(PredsOcc(g.preds, ctx), TysOcc(fs, ctx), env);
      PredsSitesCount(g.preds, ctx, env);
      TysSitesCount(fs, ctx, env);
    case EnumDef(_, g, fs) =>
      CountAppend(PredsOcc(g.preds, ctx), TysOcc(fs, ctx), env);
      PredsSitesCount(g.preds, ctx, env);
      TysSitesCount(fs, ctx, env);
    case FnDef(sig, _) => SigSitesCount(sig, ctx, env);
    case TraitDef(_, g, _, ms) =>
      CountAppend(PredsOcc(g.preds, ctx), TraitMembersOcc(ms, ctx), env);
      PredsSitesCount(g.preds, ctx, env);
      TraitMembersSitesCount(ms, ctx, env);
    case ImplDef(_, _, _, _) => ImplSitesCount(it, ImplCtx(it, ctx), env);
    case OtherItem(_) =>
  }

  /** The structural count of a file's sites is the number of counted
      types in its visiting order. */
  lemma {:induction false} ItemsSitesCount(items: seq<Item>, ctx: Ctx, env: Env)
    ensures ItemsSites(items, ctx, env) == Count(ItemsOcc(items, ctx), env)
  {
    if items != [] {
      CountAppend(ItemOcc(items[0], ctx), ItemsOcc(items[1..], ctx), env);
      ItemSitesCount(items[0], ctx, env);
      ItemsSitesCount(items[1..], ctx, env);
    }
  }

  // ---------------------------------------------------------------------
  // Under the collectors' numbering a site in range is always rewritten

  /** The collectors' numbering, with a map of projections. */
  ghost predicate Corrected(env: Env) {
    env.counting == OpenOnly && ProjectionsOnly(env.replacements)
  }

  /** A list built from a changed head or a changed tail differs from the original. */
  lemma ConsDiffers<T>(h: T, t: seq<T>, s: seq<T>)
    requires |s| > 0 && (h != s[0] || t != s[1..])
    ensures [h] + t != s
  {
    assert ([h] + t)[1..] == t;
  }

  lemma TyChanged(t: Ty, l: int, ctx: Ctx, env: Env)
    requires Corrected(env) && 0 <= l < TySites(t, ctx, env)
    ensures RewriteTy(t, l, ctx, env) != t
    decreases t
  {
    if !(Counted(t, ctx, env) && l == 0) {
      var l' := if Counted(t, ctx, env) then l - 1 else l;
      match t
      case PathTy(_, args) => TysChanged(args, l', ctx, env);
      case QSelfTy(q, _, _) => TyChanged(q, l', ctx, env);
      case RefTy(_, _, e) => TyChanged(e, l', ctx, env);
      case OtherTy(_, es) => TysChanged(es, l', ctx, env);
    }
  }

  lemma TysChanged(ts: seq<Ty>, l: int, ctx: Ctx, env: Env)
    requires Corrected(env) && 0 <= l < TysSites(ts, ctx, env)
    ensures RewriteTys(ts, l, ctx, env) != ts
    decreases ts
  {
    var n := TySites(ts[0], ctx, env);
    var h, t := RewriteTy(ts[0], l, ctx, env), RewriteTys(ts[1..], l - n, ctx, env);
    if l < n {
      TyChanged(ts[0], l, ctx, env);
    } else {
      TysChanged(ts[1..], l - n, ctx, env);
    }
    ConsDiffers(h, t, ts);
  }

  lemma PredsChanged(ps: seq<WherePred>, l: int, ctx: Ctx, env: Env)
    requires Corrected(env) && 0 <= l < PredsSites(ps, ctx, env)
    ensures RewritePreds(ps, l, ctx, env) != ps
  {
    var n := PredSites(ps[0], ctx, env);
    var h, t := RewritePred(ps[0], l, ctx, env), RewritePreds(ps[1..], l - n, ctx, env);
    if l < n {
      TyChanged(ps[0].bounded, l, ctx, env);
    } else {
      PredsChanged(ps[1..], l - n, ctx, env);
    }
    ConsDiffers(h, t, ps);
  }

  lemma ArgsChanged(args: seq<FnArg>, l: int, ctx: Ctx, env: Env)
    requires Corrected(env) && 0 <= l < ArgsSites(args, ctx, env)
    ensures RewriteArgs(args, l, ctx, env) != args
  {
    var n := ArgSites(args[0], ctx, env);
    var h, t := RewriteArg(args[0], l, ctx, env), RewriteArgs(args[1..], l - n, ctx, env);
    if l < n {
      TyChanged(args[0].ty, l, ctx, env);
    } else {
      ArgsChanged(args[1..], l - n, ctx, env);
    }
    ConsDiffers(h, t, args);
  }

  lemma SigChanged(sig: Signature, l: int, ctx: Ctx, env: Env)
    requires Corrected(env) && 0 <= l < SigSites(sig, ctx, env)
    ensures RewriteSig(sig, l, ctx, env) != sig
  {
    var n1, n2 := PredsSites(sig.generics.preds, ctx, env), ArgsSites(sig.inputs, ctx, env);
    if l < n1 {
      PredsChanged(sig.generics.preds, l, ctx, env);
    } else if l < n1 + n2 {
      ArgsChanged(sig.inputs, l - n1, ctx, env);
    } else {
      TyChanged(sig.output.value, l - n1 - n2, ctx, env);
    }
  }

  lemma TraitMemberChanged(m: TraitMember, l: int, ctx: Ctx, env: Env)
    requires Corrected(env) && 0 <= l < TraitMemberSites(m, ctx, env)
    ensures RewriteTraitMember(m, l, ctx, env) != m
  {
    match m
    case AssocType(_, g, _, d) =>
      if l < PredsSites(g.preds, ctx, env) {
        PredsChanged(g.preds, l, ctx, env);
      } else {
        TyChanged(d.value, l - PredsSites(g.preds, ctx, env), ctx, env);
      }
    case AssocConst(_, ty, _) => TyChanged(ty, l, ctx, env);
    case Method(sig, _) => SigChanged(sig, l, ctx, env);
  }

  lemma TraitMembersChanged(ms: seq<TraitMember>, l: int, ctx: Ctx, env: Env)
    requires Corrected(env) && 0 <= l < TraitMembersSites(ms, ctx, env)
    ensures RewriteTraitMembers(ms, l, ctx, env) != ms
  {
    var n := TraitMemberSites(ms[0], ctx, env);
    var h, t := RewriteTraitMember(ms[0], l, ctx, env), RewriteTraitMembers(ms[1..], l - n, ctx, env);
    if l < n {
      TraitMemberChanged(ms[0], l, ctx, env);
    } else {
      TraitMembersChanged(ms[1..], l - n, ctx, env);
    }
    ConsDiffers(h, t, ms);
  }

  lemma ImplMemberChanged(m: ImplMember, l: int, ctx: Ctx, env: Env)
    requires Corrected(env) && 0 <= l < ImplMemberSites(m, ctx, env)
    ensures RewriteImplMember(m, l, ctx, env) != m
  {
    match m
    case AssocTypeDef(n, g, ty) =>
      var c := AssocCtx(ctx, n);
      if l < PredsSites(g.preds, c, env) {
        PredsChanged(g.preds, l, c, env);
      } else {
        TyChanged(ty, l - PredsSites(g.preds, c, env), c, env);
      }
    case ConstDef(_, ty, _) => TyChanged(ty, l, ctx, env);
    case MethodDef(sig, _) => SigChanged(sig, l, ctx, env);
  }

  lemma ImplMembersChanged(ms: seq<ImplMember>, l: int, ctx: Ctx, env: Env)
    requires Corrected(env) && 0 <= l < ImplMembersSites(ms, ctx, env)
    ensures RewriteImplMembers(ms, l, ctx, env) != ms
  {
    var n := ImplMemberSites(ms[0], ctx, env);
    var h, t := RewriteImplMember(ms[0], l, ctx, env), RewriteImplMembers(ms[1..], l - n, ctx, env);
    if l < n {
      ImplMemberChanged(ms[0], l, ctx, env);
    } else {
      ImplMembersChanged(ms[1..], l - n, ctx, env);
    }
    ConsDiffers(h, t, ms);
  }

  lemma ImplChanged(it: Item, l: int, c: Ctx, env: Env)
    requires it.ImplDef? && Corrected(env) && 0 <= l < ImplSites(it, c, env)
    ensures RewriteImpl(it, l, c, env) != it
  {
    var n1, n2, n3 := PredsSites(it.generics.preds, c, env), TysSites(TraitArgs(it.traitRef), c, env),
                      TySites(it.selfTy, c, env);
    if l < n1 {
      PredsChanged(it.generics.preds, l, c, env);
    } else if l < n1 + n2 {
      TysChanged(TraitArgs(it.traitRef), l - n1, c, env);
    } else if l < n1 + n2 + n3 {
      TyChanged(it.selfTy, l - n1 - n2, c, env);
    } else {
      ImplMembersChanged(it.implMembers, l - n1 - n2 - n3, c, env);
    }
  }

  lemma ItemChanged(it: Item, l: int, ctx: Ctx, env: Env)
    requires Corrected(env) && 0 <= l < ItemSites(it, ctx, env)
    ensures RewriteItem(it, l, ctx, env) != it
  {
    match it
    case StructDef(_, g, fs) =>
      if l < PredsSites(g.preds, ctx, env) {
        PredsChanged(g.preds, l, ctx, env);
      } else {
        TysChanged(fs, l - PredsSites(g.preds, ctx, env), ctx, env);
      }
    case EnumDef(_, g, fs) =>
      if l < PredsSites(g.preds, ctx, env) {
        PredsChanged(g.preds, l, ctx, env);
      } else {
        TysChanged(fs, l - PredsSites(g.preds, ctx, env), ctx, env);
      }
    case FnDef(sig, _) => SigChanged(sig, l, ctx, env);
    case TraitDef(_, g, _, ms) =>
      if l < PredsSites(g.preds, ctx, env) {
        PredsChanged(g.preds, l, ctx, env);
      } else {
        TraitMembersChanged(ms, l - PredsSites(g.preds, ctx, env), ctx, env);
      }
    case ImplDef(_, _, _, _) => ImplChanged(it, l, ImplCtx(it, ctx), env);
  }

  /** Under the collectors' numbering the rewrite changes the file exactly
      when the target is one of its sites. */
  lemma {:induction false} ItemsChangedIff(items: seq<Item>, l: int, ctx: Ctx, env: Env)
    requires Corrected(env)
    ensures RewriteItems(items, l, ctx, env) != items <==> 0 <= l < ItemsSites(items, ctx, env)
  {
    if 0 <= l < ItemsSites(items, ctx, env) {
      var n := ItemSites(items[0], ctx, env);
      var h, t := RewriteItem(items[0], l, ctx, env), RewriteItems(items[1..], l - n, ctx, env);
      if l < n {
        ItemChanged(items[0], l, ctx, env);
      } else {
        ItemsChangedIff(items[1..], l - n, ctx, env);
      }
      ConsDiffers(h, t, items);
    }
  }

  lemma ItemsUnfold(items: seq<Item>, l: int, ctx: Ctx, env: Env)
    requires 0 <= l < ItemsSites(items, ctx, env)
    ensures RewriteItems(items, l, ctx, env)
            == [RewriteItem(items[0], l, ctx, env)] + RewriteItems(items[1..], l - ItemSites(items[0], ctx, env), ctx, env)
  {
  }

  lemma ConsUpdate<T>(s: seq<T>, i: int, v: T)
    requires 0 <= i < |s| - 1
    ensures [s[0]] + s[1..][i := v] == s[i + 1 := v]
  {
  }

  /** Whatever the counting rule, at most one item of the file changes:
      the `i`-th, whose range of sites holds the target. */
  lemma {:induction false} AtMostOneItemChanges(items: seq<Item>, l: int, ctx: Ctx, env: Env) returns (i: nat)
    ensures var r := RewriteItems(items, l, ctx, env);
            r == items || (i < |items| && r == items[i := r[i]])
  {
    i := 0;
    var r := RewriteItems(items, l, ctx, env);
    if r != items {
      var n := ItemSites(items[0], ctx, env);
      var h, rest := RewriteItem(items[0], l, ctx, env), RewriteItems(items[1..], l - n, ctx, env);
      ItemsUnfold(items, l, ctx, env);
      if l < n {
        assert r == items[0 := h];
      } else {
        var j := AtMostOneItemChanges(items[1..], l - n, ctx, env);
        ConsUpdate(items, j, rest[j]);
        i := j + 1;
      }
    }
  }
}
