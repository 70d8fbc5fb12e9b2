/** The add-trait and add-impl mutators: each has a single mutation point
    and appends one new item at the end of the file. */
module AddItems {
  import opened Wrappers
  import opened Text
  import opened Syntax
  import opened Framework
  import opened Ttdn
  import opened TraitPattern

  // ---------------------------------------------------------------------
  // Add trait

  /** How many names the fresh-trait search tries. */
  const NAME_TRIES := 256

  /** The `i`-th name tried: `NewTrait`, then `NewTrait1`, `NewTrait2`, … */
  function TraitNameCandidate(i: nat): string {
    if i == 0 then "NewTrait" else "NewTrait" + NatToDigits(i)
  }

  /** The names a new trait must avoid: the file's traits and types. */
  ghost function UsedNames(file: File): set<string> {
    (set n | n in RawInfo(file).traits) + (set n | n in RawInfo(file).types)
  }

  /** The name search: the first candidate not in `used`, or none when all
      256 are taken. */
  method PickTraitName(used: set<string>) returns (picked: Option<string>)
    ensures picked.None? <==> forall i :: 0 <= i < NAME_TRIES ==> TraitNameCandidate(i) in used
    ensures picked.Some? ==> picked.value !in used
    ensures picked.Some? ==>
              exists i :: (0 <= i < NAME_TRIES && picked.value == TraitNameCandidate(i) &&
                           forall j :: 0 <= j < i ==> TraitNameCandidate(j) in used)
  {
    for i := 0 to NAME_TRIES
      invariant forall j :: 0 <= j < i ==> TraitNameCandidate(j) in used
    {
      var candidate := TraitNameCandidate(i);
      if candidate !in used {
        return Some(candidate);
      }
    }
    return None;
  }

  /** The pattern `force_pattern` selects: 0 to 3 fix it, anything else
      (or nothing) draws one. */
  method SelectPattern(force: Option<nat>) returns (p: Pattern)
    ensures force.Some? && force.value < 4 ==> p == PatternOf(force.value)
    ensures force.Some? && force.value < 4 ==> p != ConstGenericPattern
  {
    if force.Some? && force.value < 4 {
      p := PatternOf(force.value);
    } else {
      p := ChoosePattern();
    }
  }

  /** `AddTraitMutator::mutate` (the index is ignored: there is one
      mutation point). On success the file gains exactly one trait, at the
      end, under a fresh `NewTrait` name and of the forced pattern when one
      is forced; it fails, leaving the file as it was, exactly when all 256
      names are taken. */
  method AddTraitMutate(file: File, force: Option<nat>) returns (r: Outcome)
    ensures !r.mutated <==> forall i :: 0 <= i < NAME_TRIES ==> TraitNameCandidate(i) in UsedNames(file)
    ensures !r.mutated ==> r.file == file
    ensures r.mutated ==> |r.file| == |file| + 1 && r.file[..|file|] == file
    ensures r.mutated ==> r.file[|file|].TraitDef? && r.file[|file|].name !in UsedNames(file)
    ensures r.mutated ==>
              exists p :: (r.file[|file|] == BuildTrait(r.file[|file|].name, p) &&
                           (force.Some? && force.value < 4 ==> p == PatternOf(force.value)))
  {
    var info := FromFile(file);
    var used := (set n | n in info.traits) + (set n | n in info.types);
    assert used == UsedNames(file);
    var picked := PickTraitName(used);
    if picked.None? {
      return Outcome(file, false);
    }
    var pattern := SelectPattern(force);
    var newTrait := BuildTrait(picked.value, pattern);
    r := Outcome(file + [newTrait], true);
    assert r.file[..|file|] == file;
  }

  // ---------------------------------------------------------------------
  // Add impl

  /** How many (trait, type) draws the add-impl mutator makes. */
  const IMPL_ATTEMPTS := 12

  /** `extract_generic_params`: the parameters when they are all type or
      const parameters, none as soon as one is a lifetime. */
  method ExtractGenericParams(g: Generics) returns (r: Option<seq<GenericParam>>)
    ensures r.None? <==> exists j :: 0 <= j < |g.params| && g.params[j].LifetimeParam?
    ensures r.Some? ==> r.value == g.params
  {
    var out := [];
    for k := 0 to |g.params|
      invariant out == g.params[..k]
      invariant forall j :: 0 <= j < k ==> !g.params[j].LifetimeParam?
    {
      if g.params[k].LifetimeParam? {
        return None;
      }
      out := out + [g.params[k]];
    }
    assert g.params[..|g.params|] == g.params;
    return Some(out);
  }

  /** The `i`-th renaming of a clashing parameter name: `base_i`. */
  function Suffixed(base: string, i: nat): string {
    base + "_" + NatToDigits(i)
  }

  /** `uniquify_ident`: the base when unused, else `base_i` for the
      smallest unused `i` below 128, else `G`; the name returned is added
      to `used` unless it is the `G` fallback. */
  method UniquifyIdent(base: string, used: set<string>) returns (id: string, used': set<string>)
    ensures base !in used ==> id == base && used' == used + {base}
    ensures base in used && id != "G" ==> id !in used && used' == used + {id}
    ensures base in used && id != "G" ==>
              exists i :: (0 <= i < 128 && id == Suffixed(base, i) &&
                           forall j :: 0 <= j < i ==> Suffixed(base, j) in used)
    ensures base in used && (forall i :: 0 <= i < 128 ==> Suffixed(base, i) in used) ==> id == "G" && used' == used
    ensures base in used && id == "G" ==> (forall i :: 0 <= i < 128 ==> Suffixed(base, i) in used) && used' == used
  {
    if base !in used {
      return base, used + {base};
    }
    for i := 0 to 128
      invariant forall j :: 0 <= j < i ==> Suffixed(base, j) in used
    {
      var candidate := Suffixed(base, i);
      if candidate !in used {
        assert candidate != "G" by {
          assert |candidate| >= 2;
        }
        return candidate, used + {candidate};
      }
    }
    return "G", used;
  }

  /** The generic argument supplied for parameter `p`: a literal in
      [1, 1024) for a const parameter; for a type parameter, a file type
      or a parameter the impl declares. */
  predicate ArgFor(p: GenericParam, a: Ty, types: seq<string>, implParams: seq<GenericParam>) {
    match p
    case ConstParam(_) => a.ConstArg? && 1 <= a.value < 1024
    case TypeParam(_, _) =>
      TyIdent(a).Some? && (TyIdent(a).value in types || TypeParam(TyIdent(a).value, []) in implParams)
    case LifetimeParam(_, _) => false
  }

  /** The instantiation loop over one parameter list: a type parameter
      becomes, by a coin flip, a random file type or a new impl parameter
      with a unique name; a const parameter becomes a random literal. */
  method InstantiateParams(params: seq<GenericParam>, types: seq<string>, used: set<string>, implParams: seq<GenericParam>)
    returns (args: seq<Ty>, used': set<string>, implParams': seq<GenericParam>)
    requires forall j :: 0 <= j < |params| ==> !params[j].LifetimeParam?
    ensures |args| == |params|
    ensures |implParams'| >= |implParams| && implParams'[..|implParams|] == implParams
    ensures forall j :: 0 <= j < |params| ==> ArgFor(params[j], args[j], types, implParams')
    ensures forall j :: |implParams| <= j < |implParams'| ==> implParams'[j].TypeParam? && implParams'[j].bounds == []
  {
    args, used', implParams' := [], used, implParams;
    for k := 0 to |params|
      invariant |args| == k
      invariant |implParams'| >= |implParams| && implParams'[..|implParams|] == implParams
      invariant forall j :: 0 <= j < k ==> ArgFor(params[j], args[j], types, implParams')
      invariant forall j :: |implParams| <= j < |implParams'| ==> implParams'[j].TypeParam? && implParams'[j].bounds == []
    {
      match params[k] {
        case TypeParam(name, _) =>
          var instantiate: bool :| true;
          if instantiate && |types| > 0 {
            var c :| 0 <= c < |types|;
            args := args + [IdentTy(types[c])];
          } else {
            var id;
            id, used' := UniquifyIdent(name, used');
            ghost var before := implParams';
            implParams' := implParams' + [TypeParam(id, [])];
            assert forall q :: q in before ==> q in implParams';
            assert forall j :: 0 <= j < k ==> ArgFor(params[j], args[j], types, implParams') by {
              forall j | 0 <= j < k
                ensures ArgFor(params[j], args[j], types, implParams')
              {
                assert ArgFor(params[j], args[j], types, before);
              }
            }
            args := args + [IdentTy(id)];
          }
        case ConstParam(_) =>
          var v :| 1 <= v < 1024;
          args := args + [ConstArg(v)];
      }
    }
  }

  predicate TraitNamed(it: Item, name: string) {
    it.TraitDef? && it.name == name
  }

  predicate TypeNamed(it: Item, name: string) {
    (it.StructDef? || it.EnumDef?) && it.name == name
  }

  /** The first trait of the file named `name`; none exactly when the file
      has no such trait. */
  function FindTrait(file: File, name: string): (r: Option<Item>)
    ensures r.None? <==> forall i :: 0 <= i < |file| ==> !TraitNamed(file[i], name)
    ensures r.Some? ==>
              exists i :: (0 <= i < |file| && file[i] == r.value && TraitNamed(file[i], name) &&
                           forall j :: 0 <= j < i ==> !TraitNamed(file[j], name))
  {
    if file == [] then None
    else if TraitNamed(file[0], name) then Some(file[0])
    else
      var r := FindTrait(file[1..], name);
      assert forall i :: 0 < i < |file| ==> file[i] == file[1..][i - 1];
      if r.Some? then
        var i :| 0 <= i < |file| - 1 && file[1..][i] == r.value && TraitNamed(file[1..][i], name)
          && forall j :: 0 <= j < i ==> !TraitNamed(file[1..][j], name);
        assert forall j :: 0 <= j < i + 1 ==> !TraitNamed(file[j], name);
        r
      else r
  }

  /** The generics of the first struct or enum of the file named `name`;
      none exactly when the file has no such type. */
  function FindTypeGenerics(file: File, name: string): (r: Option<Generics>)
    ensures r.None? <==> forall i :: 0 <= i < |file| ==> !TypeNamed(file[i], name)
    ensures r.Some? ==>
              exists i :: (0 <= i < |file| && TypeNamed(file[i], name) && file[i].generics == r.value &&
                           forall j :: 0 <= j < i ==> !TypeNamed(file[j], name))
  {
    if file == [] then None
    else if TypeNamed(file[0], name) then Some(file[0].generics)
    else
      var r := FindTypeGenerics(file[1..], name);
      assert forall i :: 0 < i < |file| ==> file[i] == file[1..][i - 1];
      if r.Some? then
        var i :| 0 <= i < |file| - 1 && TypeNamed(file[1..][i], name) && file[1..][i].generics == r.value
          && forall j :: 0 <= j < i ==> !TypeNamed(file[1..][j], name);
        assert forall j :: 0 <= j < i + 1 ==> !TypeNamed(file[j], name);
        r
      else r
  }

  /** `trait_has_required_items`: a method or an associated type without
      a default (a required const alone does not count). */
  predicate HasRequiredItems(ms: seq<TraitMember>) {
    exists j :: 0 <= j < |ms| && ((ms[j].Method? && ms[j].body.None?) || (ms[j].AssocType? && ms[j].default.None?))
  }

  predicate NoLifetimeParams(ps: seq<GenericParam>) {
    forall j :: 0 <= j < |ps| ==> !ps[j].LifetimeParam?
  }

  /** The header of a generated impl: `impl<params> Trait<args> for
      Type<args>` for a trait and a type the file declares, with no
      existing edge between them; the trait and the type have no lifetime
      parameters; the impl's own parameters are new unbounded type
      parameters; and every parameter of the trait and of the type gets an
      argument fit for it (`ArgFor`, drawing file types from `types`). */
  ghost predicate ImplHeader(file: File, types: seq<string>, it: Item) {
    && it.ImplDef? && it.traitRef.Some?
    && |it.traitRef.value.segments| == 1 && it.selfTy.PathTy? && |it.selfTy.segments| == 1
    && var tr := it.traitRef.value.segments[0];
       var ty := it.selfTy.segments[0];
    && tr in RawInfo(file).traits && ty in RawInfo(file).types
    && (ty, tr) !in RawInfo(file).implEdges
    && FindTrait(file, tr).Some? && FindTypeGenerics(file, ty).Some?
    && var trParams := FindTrait(file, tr).value.generics.params;
       var tyParams := FindTypeGenerics(file, ty).value.params;
       var ps := it.generics.params;
    && NoLifetimeParams(trParams) && NoLifetimeParams(tyParams)
    && it.generics.preds == []
    && (forall j :: 0 <= j < |ps| ==> ps[j].TypeParam? && ps[j].bounds == [])
    && |it.traitRef.value.args| == |trParams|
    && (forall j :: 0 <= j < |trParams| ==> ArgFor(trParams[j], it.traitRef.value.args[j], types, ps))
    && |it.selfTy.args| == |tyParams|
    && (forall j :: 0 <= j < |tyParams| ==> ArgFor(tyParams[j], it.selfTy.args[j], types, ps))
  }

  /** What a generated impl satisfies: the header above, with the members
      `make_impl_items_for_trait` generates for the trait when it has
      required items, else none. */
  ghost predicate NewImpl(file: File, types: seq<string>, it: Item) {
    && ImplHeader(file, types, it)
    && var ms := FindTrait(file, it.traitRef.value.segments[0]).value.members;
       if HasRequiredItems(ms) then
         && |it.implMembers| == |RequiredMembers(ms)|
         && forall i :: 0 <= i < |it.implMembers| ==>
              Implements(RequiredMembers(ms)[i], it.implMembers[i], BasePool(ms, types), LastChoice(it.implMembers[..i]))
       else it.implMembers == []
  }

  /** The header built from its parts satisfies `ImplHeader`. */
  lemma HeaderFromParts(file: File, types: seq<string>, tr: string, ty: string, trParams: seq<GenericParam>,
                        tyParams: seq<GenericParam>, implParams: seq<GenericParam>,
                        trArgs: seq<Ty>, tyArgs: seq<Ty>, items: seq<ImplMember>)
    requires tr in RawInfo(file).traits && ty in RawInfo(file).types && (ty, tr) !in RawInfo(file).implEdges
    requires FindTrait(file, tr).Some? && FindTypeGenerics(file, ty).Some?
    requires trParams == FindTrait(file, tr).value.generics.params && NoLifetimeParams(trParams)
    requires tyParams == FindTypeGenerics(file, ty).value.params && NoLifetimeParams(tyParams)
    requires forall j :: 0 <= j < |implParams| ==> implParams[j].TypeParam? && implParams[j].bounds == []
    requires |trArgs| == |trParams| && forall j :: 0 <= j < |trArgs| ==> ArgFor(trParams[j], trArgs[j], types, implParams)
    requires |tyArgs| == |tyParams| && forall j :: 0 <= j < |tyArgs| ==> ArgFor(tyParams[j], tyArgs[j], types, implParams)
    ensures ImplHeader(file, types, ImplDef(Generics(implParams, []), Some(TraitRef([tr], trArgs)), PathTy([ty], tyArgs), items))
  {
  }

  /** The instantiation of a trait and a type the file declares, neither
      with a lifetime parameter: the trait's parameters, then the type's,
      get their arguments (`InstantiateParams`, sharing the set of used
      names), and the impl carries `items`. */
  method BuildHeader(file: File, types: seq<string>, tr: string, ty: string, items: seq<ImplMember>)
    returns (it: Item)
    requires tr in RawInfo(file).traits && ty in RawInfo(file).types && (ty, tr) !in RawInfo(file).implEdges
    requires FindTrait(file, tr).Some? && FindTypeGenerics(file, ty).Some?
    requires NoLifetimeParams(FindTrait(file, tr).value.generics.params)
    requires NoLifetimeParams(FindTypeGenerics(file, ty).value.params)
    ensures ImplHeader(file, types, it)
    ensures it.traitRef.value.segments == [tr] && it.selfTy.segments == [ty] && it.implMembers == items
  {
    var trParams := FindTrait(file, tr).value.generics.params;
    var tyParams := FindTypeGenerics(file, ty).value.params;
    var trArgs, used, implParams := InstantiateParams(trParams, types, {}, []);
    var tyArgs, used', implParams' := InstantiateParams(tyParams, types, used, implParams);
    // The trait's arguments stay fit once the type's parameters are added.
    forall j | 0 <= j < |trArgs|
      ensures ArgFor(trParams[j], trArgs[j], types, implParams')
    {
      assert forall q :: q in implParams ==> q in implParams';
    }
    // The type's instantiation keeps the trait's parameters as a prefix.
    forall j | 0 <= j < |implParams'|
      ensures implParams'[j].TypeParam? && implParams'[j].bounds == []
    {
      if j < |implParams| {
        assert implParams'[j] == implParams'[..|implParams|][j];
      }
    }
    HeaderFromParts(file, types, tr, ty, trParams, tyParams, implParams', trArgs, tyArgs, items);
    it := ImplDef(Generics(implParams', []), Some(TraitRef([tr], trArgs)), PathTy([ty], tyArgs), items);
  }

  /** One attempt of the add-impl loop for a drawn trait and type: none
      when the edge exists, the trait or the type is not defined in the
      file, or either has a lifetime parameter; otherwise the impl. */
  method TryImpl(file: File, info: TtdnInfo, tr: string, ty: string) returns (r: Option<Item>)
    requires forall p :: p in info.implEdges <==> p in RawInfo(file).implEdges
    requires tr in RawInfo(file).traits && ty in RawInfo(file).types
    ensures r.Some? ==> NewImpl(file, info.types, r.value)
    ensures r.Some? ==> r.value.traitRef.value.segments == [tr] && r.value.selfTy.segments == [ty]
    ensures r.None? <==>
      (ty, tr) in RawInfo(file).implEdges || FindTrait(file, tr).None? || FindTypeGenerics(file, ty).None?
      || !NoLifetimeParams(FindTrait(file, tr).value.generics.params)
      || !NoLifetimeParams(FindTypeGenerics(file, ty).value.params)
  {
    if (ty, tr) in info.implEdges {
      return None;
    }
    var trDef := FindTrait(file, tr);
    var tyGenerics := FindTypeGenerics(file, ty);
    if trDef.None? || tyGenerics.None? {
      return None;
    }
    var trParams := ExtractGenericParams(trDef.value.generics);
    if trParams.None? {
      return None;
    }
    var tyParams := ExtractGenericParams(tyGenerics.value);
    if tyParams.None? {
      return None;
    }
    var items := [];
    if HasRequiredItems(trDef.value.members) {
      items := MakeImplItems(trDef.value.members, info.types);
    }
    var it := BuildHeader(file, info.types, tr, ty, items);
    r := Some(it);
  }

  /** `AddImplMutator::mutate`: with no trait or no type in the file it
      fails; otherwise it draws up to 12 (trait, type) pairs and appends
      the impl of the first that works. On failure the file is unchanged;
      on success exactly one impl is appended. `info` is the TTDN the
      mutator builds. */
  method AddImplMutate(file: File) returns (r: Outcome, ghost info: TtdnInfo)
    ensures RawInfo(file).traits == [] || RawInfo(file).types == [] ==> !r.mutated
    ensures !r.mutated ==> r.file == file
    ensures r.mutated ==> |r.file| == |file| + 1 && r.file[..|file|] == file
    ensures r.mutated ==> NewImpl(file, info.types, r.file[|file|])
    ensures forall n :: n in info.types <==> n in RawInfo(file).types
  {
    var ttdn := FromFile(file);
    info := ttdn;
    if ttdn.traits == [] || ttdn.types == [] {
      assert forall n :: n !in RawInfo(file).traits || n !in RawInfo(file).types;
      return Outcome(file, false), info;
    }
    for attempt := 0 to IMPL_ATTEMPTS {
      var i :| 0 <= i < |ttdn.traits|;
      var j :| 0 <= j < |ttdn.types|;
      var made := TryImpl(file, ttdn, ttdn.traits[i], ttdn.types[j]);
      if made.Some? {
        r := Outcome(file + [made.value], true);
        assert r.file[..|file|] == file;
        return;
      }
    }
    r := Outcome(file, false);
  }
}
