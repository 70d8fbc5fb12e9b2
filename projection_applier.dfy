/** The projection rewrite applier: a visitor that walks a file in the
    collectors' order, counts rewrite sites, and replaces the type at the
    target site by one of its filtered projections.  Every visit method
    is proved against the matching rewrite function of
    `ProjectionRewrite`, under the collectors' numbering (a site is a
    type with at least one candidate left after filtering). */
module ProjectionApplier {
  import opened Wrappers
  import opened Syntax
  import opened ProjectionRewrite
  import Ttdn

  /** The counter after a visit: it stops one past the target, because
      once the type is replaced every later visit returns at once. */
  function Stop(c: int, target: nat): int {
    if c > target then target + 1 else c
  }

  /** After a part with `n` sites the counter either moved by `n` or
      stopped past the target, in which case the remaining offset is
      negative either way. */
  lemma StopShift(c: int, n: nat, target: nat)
    requires c <= target + 1
    ensures target - Stop(c + n, target) == target - c - n || (target - Stop(c + n, target) < 0 && target - c - n < 0)
    ensures Stop(c + n, target) <= target + 1
  {
  }

  /** Visiting two parts one after the other stops the counter where
      visiting them together would. */
  lemma StopStop(c: int, a: nat, b: nat, target: nat)
    requires c <= target + 1
    ensures Stop(Stop(c + a, target) + b, target) == Stop(c + a + b, target)
  {
  }

  /** The offset a part is visited at, given the counter before it:
      either the exact offset, or a negative one at which nothing changes. */
  lemma PredsAt(ps: seq<WherePred>, c0: int, n: nat, target: nat, ctx: Ctx, env: Env)
    requires c0 <= target + 1
    ensures RewritePreds(ps, target - Stop(c0 + n, target), ctx, env) == RewritePreds(ps, target - c0 - n, ctx, env)
  {
    StopShift(c0, n, target);
  }

  lemma TysAt(ts: seq<Ty>, c0: int, n: nat, target: nat, ctx: Ctx, env: Env)
    requires c0 <= target + 1
    ensures RewriteTys(ts, target - Stop(c0 + n, target), ctx, env) == RewriteTys(ts, target - c0 - n, ctx, env)
  {
    StopShift(c0, n, target);
  }

  lemma TyAt(t: Ty, c0: int, n: nat, target: nat, ctx: Ctx, env: Env)
    requires c0 <= target + 1
    ensures RewriteTy(t, target - Stop(c0 + n, target), ctx, env) == RewriteTy(t, target - c0 - n, ctx, env)
  {
    StopShift(c0, n, target);
  }

  lemma ImplMembersAt(ms: seq<ImplMember>, c0: int, n: nat, target: nat, ctx: Ctx, env: Env)
    requires c0 <= target + 1
    ensures RewriteImplMembers(ms, target - Stop(c0 + n, target), ctx, env)
            == RewriteImplMembers(ms, target - c0 - n, ctx, env)
  {
    StopShift(c0, n, target);
  }

  /** One step of the walk over a list of items: the first item, then the
      rest from where the counter stopped. */
  lemma ItemsStep(items: seq<Item>, c0: int, c1: int, c2: int, target: nat, ctx: Ctx, env: Env, h: Item, rest: seq<Item>)
    requires items != [] && c0 <= target + 1
    requires c1 == Stop(c0 + ItemSites(items[0], ctx, env), target)
    requires c2 == Stop(c1 + ItemsSites(items[1..], ctx, env), target)
    requires h == RewriteItem(items[0], target - c0, ctx, env)
    requires rest == RewriteItems(items[1..], target - c1, ctx, env)
    ensures [h] + rest == RewriteItems(items, target - c0, ctx, env)
    ensures c2 == Stop(c0 + ItemsSites(items, ctx, env), target)
  {
    StopShift(c0, ItemSites(items[0], ctx, env), target);
    StopStop(c0, ItemSites(items[0], ctx, env), ItemsSites(items[1..], ctx, env), target);
  }

  lemma ImplStep(it: Item, c0: int, target: nat, ctx: Ctx, env: Env,
                 ps: seq<WherePred>, args: seq<Ty>, selfTy: Ty, ms: seq<ImplMember>)
    requires it.ImplDef? && c0 <= target + 1
    requires ps == RewritePreds(it.generics.preds, target - c0, ctx, env)
    requires args == RewriteTys(TraitArgs(it.traitRef), target - c0 - PredsSites(it.generics.preds, ctx, env), ctx, env)
    requires selfTy == RewriteTy(it.selfTy, target - Stop(c0 + PredsSites(it.generics.preds, ctx, env)
                                                          + TysSites(TraitArgs(it.traitRef), ctx, env), target), ctx, env)
    requires ms == RewriteImplMembers(it.implMembers, target - Stop(c0 + PredsSites(it.generics.preds, ctx, env)
                                                                   + TysSites(TraitArgs(it.traitRef), ctx, env), target)
                                                      - TySites(it.selfTy, ctx, env), ctx, env)
    ensures ImplDef(WithPreds(it.generics, ps), WithTraitArgs(it.traitRef, args), selfTy, ms)
            == RewriteImpl(it, target - c0, ctx, env)
  {
    ImplTailAt(it, c0, target, ctx, env);
  }

  /** The tail of an impl block is visited after its head: at the exact
      offset, or at a negative one at which nothing changes, and the
      counter stops where visiting the whole impl would. */
  lemma ImplTailAt(it: Item, c0: int, target: nat, ctx: Ctx, env: Env)
    requires it.ImplDef? && c0 <= target + 1
    ensures RewriteTy(it.selfTy, target - Stop(c0 + PredsSites(it.generics.preds, ctx, env)
                                               + TysSites(TraitArgs(it.traitRef), ctx, env), target), ctx, env)
            == RewriteTy(it.selfTy, target - c0 - PredsSites(it.generics.preds, ctx, env)
                                    - TysSites(TraitArgs(it.traitRef), ctx, env), ctx, env)
    ensures RewriteImplMembers(it.implMembers, target - Stop(c0 + PredsSites(it.generics.preds, ctx, env)
                                                             + TysSites(TraitArgs(it.traitRef), ctx, env), target)
                                               - TySites(it.selfTy, ctx, env), ctx, env)
            == RewriteImplMembers(it.implMembers, target - c0 - PredsSites(it.generics.preds, ctx, env)
                                                  - TysSites(TraitArgs(it.traitRef), ctx, env) - TySites(it.selfTy, ctx, env), ctx, env)
    ensures Stop(Stop(c0 + PredsSites(it.generics.preds, ctx, env) + TysSites(TraitArgs(it.traitRef), ctx, env), target)
                 + TySites(it.selfTy, ctx, env) + ImplMembersSites(it.implMembers, ctx, env), target)
            == Stop(c0 + ImplSites(it, ctx, env), target)
  {
    var n1, n2 := PredsSites(it.generics.preds, ctx, env), TysSites(TraitArgs(it.traitRef), ctx, env);
    var n3, n4 := TySites(it.selfTy, ctx, env), ImplMembersSites(it.implMembers, ctx, env);
    assert ImplSites(it, ctx, env) == n1 + n2 + n3 + n4;
    StopShift(c0, n1 + n2, target);
    StopShift(c0, n1 + n2 + n3, target);
    StopStop(c0, n1 + n2, n3 + n4, target);
  }

  class Applier {
    /** The site to rewrite, counted in visiting order. */
    const target: nat
    const replacements: map<string, seq<Candidate>>
    /** The candidate to pick at the target; none for a random pick. */
    const choiceIndex: Option<nat>
    /** The random number drawn when there is no choice index. */
    const draw: nat
    /** Sites visited so far. */
    var current: nat
    var mutated: bool
    /** The self type and trait of the enclosing trait impl, and the
        associated type being defined, when known. */
    var implSelf: Option<string>
    var implTrait: Option<string>
    var implAssoc: Option<string>
    /** The number of filtered candidates at the target site, and the
        one picked. */
    var choiceCount: nat
    var chosenChoiceIndex: nat

    constructor (target: nat, replacements: map<string, seq<Candidate>>, choiceIndex: Option<nat>, draw: nat,
                 choiceCount: nat, chosenChoiceIndex: nat)
      ensures this.target == target && this.replacements == replacements
      ensures this.choiceIndex == choiceIndex && this.draw == draw
      ensures current == 0 && !mutated && Context() == NoCtx
      ensures this.choiceCount == choiceCount && this.chosenChoiceIndex == chosenChoiceIndex
      ensures Valid()
    {
      this.target := target;
      this.replacements := replacements;
      this.choiceIndex := choiceIndex;
      this.draw := draw;
      current := 0;
      mutated := false;
      implSelf, implTrait, implAssoc := None, None, None;
      this.choiceCount := choiceCount;
      this.chosenChoiceIndex := chosenChoiceIndex;
    }

    /** The rewrite setting: the given choice index, or the random draw,
        is taken modulo the number of filtered candidates. */
    function RewriteEnv(): Env {
      Env(replacements, if choiceIndex.Some? then choiceIndex.value else draw, OpenOnly)
    }

    function Context(): Ctx
      reads this
    {
      Ctx(implSelf, implTrait, implAssoc)
    }

    /** The applier has mutated exactly when its counter passed the
        target, and then recorded a pick among the target's candidates. */
    ghost predicate Valid()
      reads this
    {
      current <= target + 1 && (mutated <==> current > target) && (mutated ==> chosenChoiceIndex < choiceCount)
    }

    /** The site test of `visit_type_mut`: a path type in the map with a
        filtered candidate is a site, and at the target it is replaced by
        the picked candidate. */
    method VisitSite(t: Ty) returns (r: Ty)
      requires Valid() && !mutated
      modifies this
      ensures Valid() && Context() == old(Context())
      ensures current == old(current) + (if Counted(t, old(Context()), RewriteEnv()) then 1 else 0)
      ensures mutated <==> Counted(t, old(Context()), RewriteEnv()) && old(current) == target
      ensures r == if mutated then Chosen(t, old(Context()), RewriteEnv()) else t
      ensures mutated ==> choiceCount == |FilteredAt(t, Context(), replacements)|
                          && chosenChoiceIndex == RewriteEnv().draw % choiceCount
    {
      r := t;
      if t.PathTy? && Tokens(t) in replacements {
        var f := Filtered(replacements[Tokens(t)], Context());
        if f != [] {
          if current == target {
            choiceCount := |f|;
            chosenChoiceIndex := RewriteEnv().draw % |f|;
            r := f[chosenChoiceIndex].ty;
            mutated := true;
          }
          current := current + 1;
        }
      }
    }

    /** `visit_type_mut`: nothing once mutated; after the site test the
        children are visited unless the type was just replaced. */
    method VisitTy(t: Ty) returns (r: Ty)
      requires Valid()
      modifies this
      decreases t
      ensures Valid() && Context() == old(Context())
      ensures r == RewriteTy(t, target - old(current), old(Context()), RewriteEnv())
      ensures current == Stop(old(current) + TySites(t, old(Context()), RewriteEnv()), target)
    {
      if mutated {
        return t;
      }
      r := VisitSite(t);
      if !mutated {
        match t
        case PathTy(s, args) =>
          var args' := VisitTys(args);
          r := PathTy(s, args');
        case QSelfTy(q, tr, a) =>
          var q' := VisitTy(q);
          r := QSelfTy(q', tr, a);
        case RefTy(lt, mu, e) =>
          var e' := VisitTy(e);
          r := RefTy(lt, mu, e');
        case OtherTy(k, es) =>
          var es' := VisitTys(es);
          r := OtherTy(k, es');
        case ConstArg(_) =>
      }
    }

    method VisitTys(ts: seq<Ty>) returns (r: seq<Ty>)
      requires Valid()
      modifies this
      decreases ts
      ensures Valid() && Context() == old(Context())
      ensures r == RewriteTys(ts, target - old(current), old(Context()), RewriteEnv())
      ensures current == Stop(old(current) + TysSites(ts, old(Context()), RewriteEnv()), target)
    {
      if ts == [] {
        return [];
      }
      var h := VisitTy(ts[0]);
      var rest := VisitTys(ts[1..]);
      r := [h] + rest;
    }

    /** An optional type, such as a return type or an associated type's default. */
    method VisitOptTy(t: Option<Ty>) returns (r: Option<Ty>)
      requires Valid()
      modifies this
      ensures Valid() && Context() == old(Context())
      ensures r == RewriteOptTy(t, target - old(current), old(Context()), RewriteEnv())
      ensures current == Stop(old(current) + OptTySites(t, old(Context()), RewriteEnv()), target)
    {
      r := t;
      if t.Some? {
        var ty := VisitTy(t.value);
        r := Some(ty);
      }
    }

    /** A where-predicate: only the bounded type of a type predicate is visited. */
    method VisitPred(p: WherePred) returns (r: WherePred)
      requires Valid()
      modifies this
      ensures Valid() && Context() == old(Context())
      ensures r == RewritePred(p, target - old(current), old(Context()), RewriteEnv())
      ensures current == Stop(old(current) + PredSites(p, old(Context()), RewriteEnv()), target)
    {
      r := p;
      if p.TypePred? {
        var ty := VisitTy(p.bounded);
        r := TypePred(ty, p.bounds);
      }
    }

    /** A where clause, predicate by predicate. */
    method VisitPreds(ps: seq<WherePred>) returns (r: seq<WherePred>)
      requires Valid()
      modifies this
      decreases ps
      ensures Valid() && Context() == old(Context())
      ensures r == RewritePreds(ps, target - old(current), old(Context()), RewriteEnv())
      ensures current == Stop(old(current) + PredsSites(ps, old(Context()), RewriteEnv()), target)
    {
      if ps == [] {
        return [];
      }
      var h := VisitPred(ps[0]);
      var rest := VisitPreds(ps[1..]);
      r := [h] + rest;
    }

    /** A function argument: a typed argument's type is visited, a receiver is not. */
    method VisitArg(a: FnArg) returns (r: FnArg)
      requires Valid()
      modifies this
      ensures Valid() && Context() == old(Context())
      ensures r == RewriteArg(a, target - old(current), old(Context()), RewriteEnv())
      ensures current == Stop(old(current) + ArgSites(a, old(Context()), RewriteEnv()), target)
    {
      r := a;
      if a.Typed? {
        var ty := VisitTy(a.ty);
        r := Typed(ty);
      }
    }

    /** The arguments of a signature, in order. */
    method VisitArgs(args: seq<FnArg>) returns (r: seq<FnArg>)
      requires Valid()
      modifies this
      decreases args
      ensures Valid() && Context() == old(Context())
      ensures r == RewriteArgs(args, target - old(current), old(Context()), RewriteEnv())
      ensures current == Stop(old(current) + ArgsSites(args, old(Context()), RewriteEnv()), target)
    {
      if args == [] {
        return [];
      }
      var h := VisitArg(args[0]);
      var rest := VisitArgs(args[1..]);
      r := [h] + rest;
    }

    /** A signature: where clause, arguments, then return type. */
    method VisitSig(sig: Signature) returns (r: Signature)
      requires Valid()
      modifies this
      ensures Valid() && Context() == old(Context())
      ensures r == RewriteSig(sig, target - old(current), old(Context()), RewriteEnv())
      ensures current == Stop(old(current) + SigSites(sig, old(Context()), RewriteEnv()), target)
    {
      var ps := VisitPreds(sig.generics.preds);
      var args := VisitArgs(sig.inputs);
      var out := VisitOptTy(sig.output);
      r := Signature(sig.name, WithPreds(sig.generics, ps), args, out);
    }

    /** A trait member: an associated type's where clause and default, a constant's type, a method's signature. */
    method VisitTraitMember(m: TraitMember) returns (r: TraitMember)
      requires Valid()
      modifies this
      ensures Valid() && Context() == old(Context())
      ensures r == RewriteTraitMember(m, target - old(current), old(Context()), RewriteEnv())
      ensures current == Stop(old(current) + TraitMemberSites(m, old(Context()), RewriteEnv()), target)
    {
      match m
      case AssocType(n, g, b, d) =>
        var ps := VisitPreds(g.preds);
        var d' := VisitOptTy(d);
        r := AssocType(n, WithPreds(g, ps), b, d');
      case AssocConst(n, ty, d) =>
        var ty' := VisitTy(ty);
        r := AssocConst(n, ty', d);
      case Method(sig, body) =>
        var sig' := VisitSig(sig);
        r := Method(sig', body);
      case OtherTraitMember(_) =>
        r := m;
    }

    /** The members of a trait, in order. */
    method VisitTraitMembers(ms: seq<TraitMember>) returns (r: seq<TraitMember>)
      requires Valid()
      modifies this
      decreases ms
      ensures Valid() && Context() == old(Context())
      ensures r == RewriteTraitMembers(ms, target - old(current), old(Context()), RewriteEnv())
      ensures current == Stop(old(current) + TraitMembersSites(ms, old(Context()), RewriteEnv()), target)
    {
      if ms == [] {
        return [];
      }
      var h := VisitTraitMember(ms[0]);
      var rest := VisitTraitMembers(ms[1..]);
      r := [h] + rest;
    }

    /** `visit_impl_item_type_mut`: the associated type being defined is
        recorded while its where clause and type are visited, and the
        previous one is restored afterwards. */
    method VisitAssocTypeDef(n: string, g: Generics, ty: Ty) returns (r: ImplMember)
      requires Valid()
      modifies this
      ensures Valid() && Context() == old(Context())
      ensures r == RewriteImplMember(AssocTypeDef(n, g, ty), target - old(current), old(Context()), RewriteEnv())
      ensures current == Stop(old(current) + ImplMemberSites(AssocTypeDef(n, g, ty), old(Context()), RewriteEnv()), target)
    {
      var prev := implAssoc;
      implAssoc := Some(n);
      var ps := VisitPreds(g.preds);
      var ty' := VisitTy(ty);
      implAssoc := prev;
      r := AssocTypeDef(n, WithPreds(g, ps), ty');
    }

    /** An impl member: an associated type definition, a constant's type, a method's signature. */
    method VisitImplMember(m: ImplMember) returns (r: ImplMember)
      requires Valid()
      modifies this
      ensures Valid() && Context() == old(Context())
      ensures r == RewriteImplMember(m, target - old(current), old(Context()), RewriteEnv())
      ensures current == Stop(old(current) + ImplMemberSites(m, old(Context()), RewriteEnv()), target)
    {
      match m
      case AssocTypeDef(n, g, ty) =>
        r := VisitAssocTypeDef(n, g, ty);
      case ConstDef(n, ty, v) =>
        var ty' := VisitTy(ty);
        r := ConstDef(n, ty', v);
      case MethodDef(sig, body) =>
        var sig' := VisitSig(sig);
        r := MethodDef(sig', body);
      case OtherImplMember(_) =>
        r := m;
    }

    /** The members of an impl block, in order. */
    method VisitImplMembers(ms: seq<ImplMember>) returns (r: seq<ImplMember>)
      requires Valid()
      modifies this
      decreases ms
      ensures Valid() && Context() == old(Context())
      ensures r == RewriteImplMembers(ms, target - old(current), old(Context()), RewriteEnv())
      ensures current == Stop(old(current) + ImplMembersSites(ms, old(Context()), RewriteEnv()), target)
    {
      if ms == [] {
        return [];
      }
      var h := VisitImplMember(ms[0]);
      var rest := VisitImplMembers(ms[1..]);
      r := [h] + rest;
    }

    /** The head of an impl block: its where clause, then its trait's
        generic arguments. */
    method VisitImplHead(it: Item, ghost ctx: Ctx) returns (ps: seq<WherePred>, args: seq<Ty>)
      requires Valid() && it.ImplDef? && ctx == Context()
      modifies this
      ensures Valid() && Context() == ctx
      ensures ps == RewritePreds(it.generics.preds, target - old(current), ctx, RewriteEnv())
      ensures args == RewriteTys(TraitArgs(it.traitRef), target - old(current)
                                 - PredsSites(it.generics.preds, ctx, RewriteEnv()), ctx, RewriteEnv())
      ensures current == Stop(old(current) + PredsSites(it.generics.preds, ctx, RewriteEnv())
                              + TysSites(TraitArgs(it.traitRef), ctx, RewriteEnv()), target)
    {
      ghost var c0, env := current, RewriteEnv();
      ghost var n1 := PredsSites(it.generics.preds, ctx, env);
      ps := VisitPreds(it.generics.preds);
      args := VisitTys(TraitArgs(it.traitRef));
      TysAt(TraitArgs(it.traitRef), c0, n1, target, ctx, env);
      StopStop(c0, n1, TysSites(TraitArgs(it.traitRef), ctx, env), target);
    }

    /** The tail of an impl block: its self type, then its members. */
    method VisitImplTail(it: Item, ghost ctx: Ctx) returns (selfTy: Ty, ms: seq<ImplMember>)
      requires Valid() && it.ImplDef? && ctx == Context()
      modifies this
      ensures Valid() && Context() == ctx
      ensures selfTy == RewriteTy(it.selfTy, target - old(current), ctx, RewriteEnv())
      ensures ms == RewriteImplMembers(it.implMembers, target - old(current)
                                       - TySites(it.selfTy, ctx, RewriteEnv()), ctx, RewriteEnv())
      ensures current == Stop(old(current) + TySites(it.selfTy, ctx, RewriteEnv())
                              + ImplMembersSites(it.implMembers, ctx, RewriteEnv()), target)
    {
      ghost var c0, env := current, RewriteEnv();
      ghost var n3 := TySites(it.selfTy, ctx, env);
      selfTy := VisitTy(it.selfTy);
      ms := VisitImplMembers(it.implMembers);
      ImplMembersAt(it.implMembers, c0, n3, target, ctx, env);
      StopStop(c0, n3, ImplMembersSites(it.implMembers, ctx, env), target);
    }

    /** The parts of an impl block, visited under the context already set
        for it: where clause, trait arguments, self type, members. */
    method VisitImplParts(it: Item) returns (r: Item)
      requires Valid() && it.ImplDef?
      modifies this
      ensures Valid() && Context() == old(Context())
      ensures r == RewriteImpl(it, target - old(current), old(Context()), RewriteEnv())
      ensures current == Stop(old(current) + ImplSites(it, old(Context()), RewriteEnv()), target)
    {
      ghost var c0, ctx, env := current, Context(), RewriteEnv();
      var ps, args := VisitImplHead(it, ctx);
      var selfTy, ms := VisitImplTail(it, ctx);
      ImplTailAt(it, c0, target, ctx, env);
      ImplStep(it, c0, target, ctx, env, ps, args, selfTy, ms);
      r := ImplDef(WithPreds(it.generics, ps), WithTraitArgs(it.traitRef, args), selfTy, ms);
    }

    /** `visit_item_impl_mut`: for a trait impl whose trait and self type
        are plain identifiers these become the context while the impl is
        visited; the previous context is restored afterwards. */
    method VisitImpl(it: Item) returns (r: Item)
      requires Valid() && it.ImplDef?
      modifies this
      ensures Valid() && Context() == old(Context())
      ensures r == RewriteImpl(it, target - old(current), ImplCtx(it, old(Context())), RewriteEnv())
      ensures current == Stop(old(current) + ImplSites(it, ImplCtx(it, old(Context())), RewriteEnv()), target)
    {
      var prevSelf, prevTrait := implSelf, implTrait;
      match Ttdn.ImplEdge(it) {
        case Some((ty, tr)) =>
          implSelf, implTrait := Some(ty), Some(tr);
        case None =>
      }
      r := VisitImplParts(it);
      implSelf, implTrait := prevSelf, prevTrait;
    }

    /** A struct or enum: its where clause, then its field types. */
    method VisitAdt(it: Item) returns (r: Item)
      requires Valid() && (it.StructDef? || it.EnumDef?)
      modifies this
      ensures Valid() && Context() == old(Context())
      ensures r == RewriteItem(it, target - old(current), old(Context()), RewriteEnv())
      ensures current == Stop(old(current) + ItemSites(it, old(Context()), RewriteEnv()), target)
    {
      var ps := VisitPreds(it.generics.preds);
      var fs := VisitTys(it.fields);
      r := it.(generics := WithPreds(it.generics, ps), fields := fs);
    }

    /** A trait: its where clause, then its members. */
    method VisitTrait(it: Item) returns (r: Item)
      requires Valid() && it.TraitDef?
      modifies this
      ensures Valid() && Context() == old(Context())
      ensures r == RewriteItem(it, target - old(current), old(Context()), RewriteEnv())
      ensures current == Stop(old(current) + ItemSites(it, old(Context()), RewriteEnv()), target)
    {
      var ps := VisitPreds(it.generics.preds);
      var ms := VisitTraitMembers(it.members);
      r := TraitDef(it.name, WithPreds(it.generics, ps), it.supertraits, ms);
    }

    /** An item: a struct or enum, a function's signature, a trait, an
        impl block; anything else is not visited. */
    method VisitItem(it: Item) returns (r: Item)
      requires Valid()
      modifies this
      ensures Valid() && Context() == old(Context())
      ensures r == RewriteItem(it, target - old(current), old(Context()), RewriteEnv())
      ensures current == Stop(old(current) + ItemSites(it, old(Context()), RewriteEnv()), target)
    {
      match it
      case StructDef(_, _, _) =>
        r := VisitAdt(it);
      case EnumDef(_, _, _) =>
        r := VisitAdt(it);
      case FnDef(sig, body) =>
        var sig' := VisitSig(sig);
        r := FnDef(sig', body);
      case TraitDef(_, _, _, _) =>
        r := VisitTrait(it);
      case ImplDef(_, _, _, _) =>
        r := VisitImpl(it);
      case OtherItem(_) =>
        r := it;
    }

    /** The items of a file, in order. */
    method VisitItems(items: seq<Item>) returns (r: seq<Item>)
      requires Valid()
      modifies this
      decreases items
      ensures Valid() && Context() == old(Context())
      ensures r == RewriteItems(items, target - old(current), old(Context()), RewriteEnv())
      ensures current == Stop(old(current) + ItemsSites(items, old(Context()), RewriteEnv()), target)
    {
      if items == [] {
        return [];
      }
      ghost var c0, ctx, env := current, Context(), RewriteEnv();
      var h := VisitItem(items[0]);
      ghost var c1 := current;
      var rest := VisitItems(items[1..]);
      ItemsStep(items, c0, c1, current, target, ctx, env, h, rest);
      r := [h] + rest;
    }

    /** `visit_file_mut` on a fresh applier: the file is rewritten at the
        target site, and the applier has mutated exactly when the target
        is one of the file's sites. */
    method VisitFile(file: File) returns (r: File)
      requires Valid() && current == 0 && Context() == NoCtx
      modifies this
      ensures Valid() && Context() == NoCtx
      ensures r == RewriteItems(file, target, NoCtx, RewriteEnv())
      ensures mutated <==> target < ItemsSites(file, NoCtx, RewriteEnv())
    {
      r := VisitItems(file);
    }
  }
}
