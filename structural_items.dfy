/** The older item-adding mutators: add an associated type to a trait, add
    a bare trait, add an impl of a file trait for a file type. The name
    search, the parameter renaming and the argument instantiation are the
    ones of the add-trait and add-impl mutators in `AddItems`. */
module StructuralItems {
  import opened Wrappers
  import opened Text
  import opened Syntax
  import opened Flatten
  import opened Framework
  import opened Ttdn
  import AddItems
  import TraitPattern
  import ProjectionRewrite

  // ---------------------------------------------------------------------
  // Add associated type: the name search

  /** How many names the associated-type search tries. */
  const ASSOC_TRIES := 256

  /** The `i`-th name tried: `Assoc`, then `Assoc1`, `Assoc2`, … */
  function AssocNameCandidate(i: nat): string {
    if i == 0 then "Assoc" else "Assoc" + NatToDigits(i)
  }

  /** The names of a trait's associated types. */
  function AssocTypeNames(ms: seq<TraitMember>): set<string> {
    set j | 0 <= j < |ms| && ms[j].AssocType? :: ms[j].name
  }

  /** The first candidate from the `i`-th on that is not in `used`, or
      none when all the remaining ones are taken. */
  function FirstFreeAssoc(used: set<string>, i: nat): (r: Option<string>)
    requires i <= ASSOC_TRIES
    decreases ASSOC_TRIES - i
    ensures r.None? <==> forall j :: i <= j < ASSOC_TRIES ==> AssocNameCandidate(j) in used
    ensures r.Some? ==> r.value !in used
    ensures r.Some? ==>
              exists j :: (i <= j < ASSOC_TRIES && r.value == AssocNameCandidate(j) &&
                           forall q :: i <= q < j ==> AssocNameCandidate(q) in used)
  {
    if i == ASSOC_TRIES then None
    else if AssocNameCandidate(i) !in used then Some(AssocNameCandidate(i))
    else FirstFreeAssoc(used, i + 1)
  }

  /** The search loop of the applier: the first free candidate. */
  method PickAssocName(used: set<string>) returns (picked: Option<string>)
    ensures picked == FirstFreeAssoc(used, 0)
  {
    for n := 0 to ASSOC_TRIES
      invariant FirstFreeAssoc(used, n) == FirstFreeAssoc(used, 0)
    {
      var candidate := AssocNameCandidate(n);
      if candidate !in used {
        return Some(candidate);
      }
    }
    return None;
  }

  /** The associated type the applier adds: `type X = i32;`, a default so
      that existing impls of the trait still compile. */
  function NewAssoc(name: string): TraitMember {
    AssocType(name, NoGenerics, [], Some(IdentTy("i32")))
  }

  /** The trait after the edit at its site: one associated type appended
      under the first free name, or the trait as it was when all 256 names
      are taken. */
  function WithAssoc(it: Item): (r: Item)
    requires it.TraitDef?
    ensures r.TraitDef? && r.name == it.name && r.generics == it.generics && r.supertraits == it.supertraits
    ensures r == it <==> forall j :: 0 <= j < ASSOC_TRIES ==> AssocNameCandidate(j) in AssocTypeNames(it.members)
    ensures r != it ==>
              exists n :: (n !in AssocTypeNames(it.members) && r.members == it.members + [NewAssoc(n)] &&
                           exists j :: 0 <= j < ASSOC_TRIES && n == AssocNameCandidate(j))
  {
    match FirstFreeAssoc(AssocTypeNames(it.members), 0)
    case None => it
    case Some(n) =>
      var r := it.(members := it.members + [NewAssoc(n)]);
      assert |r.members| == |it.members| + 1;
      r
  }

  // ---------------------------------------------------------------------
  // Add associated type: sites and the edit

  /** The collector's count: one site per trait (it does not look inside
      a trait). */
  function TraitCount(items: seq<Item>): nat {
    if items == [] then 0
    else (if items[0].TraitDef? then 1 else 0) + TraitCount(items[1..])
  }

  /** The file after the applier's walk with the target `l` traits ahead. */
  function AssocRewrite(items: seq<Item>, l: int): (r: seq<Item>)
    ensures |r| == |items|
  {
    if items == [] then []
    else if items[0].TraitDef? then
      [if l == 0 then WithAssoc(items[0]) else items[0]] + AssocRewrite(items[1..], l - 1)
    else [items[0]] + AssocRewrite(items[1..], l)
  }

  /** Item by item: the trait with `l` traits before it gets the new
      associated type, and every other item stays as it was. */
  lemma {:induction false} AssocRewriteAt(items: seq<Item>, l: int, i: nat)
    requires i < |items|
    ensures AssocRewrite(items, l)[i] ==
              if items[i].TraitDef? && TraitCount(items[..i]) == l then WithAssoc(items[i]) else items[i]
    decreases i
  {
    if i == 0 {
      assert items[..0] == [];
    } else {
      var l' := if items[0].TraitDef? then l - 1 else l;
      AssocRewriteAt(items[1..], l', i - 1);
      assert items[..i][1..] == items[1..][..i - 1];
      assert items[..i][0] == items[0];
    }
  }

  /** The collector counts exactly the traits the TTDN lists. */
  lemma {:induction false} AssocSitesAreTraits(items: seq<Item>)
    ensures TraitCount(items) == |FlatMap(items, ItemTraits)|
  {
    if items != [] {
      FlatMapCons(items, ItemTraits);
      AssocSitesAreTraits(items[1..]);
    }
  }

  /** `AddAssocTypeCollector` over a file. */
  class AssocCollector {
    var count: nat

    constructor ()
      ensures count == 0
    {
      count := 0;
    }

    /** `visit_file`; `visit_item_trait` counts the trait and stops. */
    method VisitItems(items: seq<Item>)
      modifies this
      ensures count == old(count) + TraitCount(items)
    {
      if items != [] {
        if items[0].TraitDef? {
          count := count + 1;
        }
        VisitItems(items[1..]);
      }
    }
  }

  /** `AddAssocTypeApplier`. */
  class AssocApplier {
    const target: nat
    var current: nat
    var mutated: bool

    constructor (target: nat)
      ensures this.target == target && current == 0 && !mutated
    {
      this.target := target;
      current := 0;
      mutated := false;
    }

    /** `visit_item_trait_mut`: at the target, the name search and the
        push; the counter passes the trait either way. */
    method VisitTrait(it: Item) returns (r: Item)
      requires it.TraitDef?
      modifies this
      ensures r == if old(current) == target then WithAssoc(it) else it
      ensures current == old(current) + 1
      ensures mutated == (old(mutated) || r != it)
    {
      r := it;
      if current == target {
        var picked := PickAssocName(AssocTypeNames(it.members));
        if picked.Some? {
          r := it.(members := it.members + [NewAssoc(picked.value)]);
          assert |r.members| == |it.members| + 1;
          mutated := true;
        }
      }
      current := current + 1;
    }

    method VisitItems(items: seq<Item>) returns (r: seq<Item>)
      modifies this
      ensures r == AssocRewrite(items, target - old(current))
      ensures current == old(current) + TraitCount(items)
      ensures mutated == (old(mutated) || r != items)
    {
      if items == [] {
        return [];
      }
      var h := items[0];
      if h.TraitDef? {
        h := VisitTrait(h);
      }
      var t := VisitItems(items[1..]);
      r := [h] + t;
      if h != items[0] || t != items[1..] {
        ProjectionRewrite.ConsDiffers(h, t, items);
      } else {
        assert r == items;
      }
    }
  }

  /** `AddAssocTypeMutator::collect`. */
  method CollectAssocSites(file: File) returns (count: nat)
    ensures count == TraitCount(file)
  {
    var c := new AssocCollector();
    c.VisitItems(file);
    count := c.count;
  }

  /** `AddAssocTypeMutator::mutate`: only the `index`-th trait can change,
      and it changes exactly when one of the 256 names is free in it. */
  method AddAssocTypeMutate(file: File, index: nat) returns (r: Outcome)
    ensures r.file == AssocRewrite(file, index)
    ensures r.mutated <==> r.file != file
    ensures r.mutated <==>
              exists i :: (0 <= i < |file| && file[i].TraitDef? && TraitCount(file[..i]) == index &&
                           WithAssoc(file[i]) != file[i])
  {
    var a := new AssocApplier(index);
    var f := a.VisitItems(file);
    r := Outcome(f, a.mutated);
    AssocChangedIff(file, index);
  }

  /** The walk changes the file exactly when the trait at the offset can
      take a new associated type. */
  lemma AssocChangedIff(items: seq<Item>, l: int)
    ensures AssocRewrite(items, l) != items <==>
              exists i :: (0 <= i < |items| && items[i].TraitDef? && TraitCount(items[..i]) == l &&
                           WithAssoc(items[i]) != items[i])
  {
    var r := AssocRewrite(items, l);
    if r != items {
      var i :| 0 <= i < |items| && r[i] != items[i];
      AssocRewriteAt(items, l, i);
    }
    if exists i :: 0 <= i < |items| && items[i].TraitDef? && TraitCount(items[..i]) == l && WithAssoc(items[i]) != items[i] {
      var i :| 0 <= i < |items| && items[i].TraitDef? && TraitCount(items[..i]) == l && WithAssoc(items[i]) != items[i];
      AssocRewriteAt(items, l, i);
    }
  }

  /** An index below the number of traits names exactly one trait. */
  lemma {:induction false} TraitAtIndex(items: seq<Item>, l: nat) returns (i: nat)
    requires l < TraitCount(items)
    ensures i < |items| && items[i].TraitDef? && TraitCount(items[..i]) == l
    ensures forall j :: 0 <= j < |items| && items[j].TraitDef? && TraitCount(items[..j]) == l ==> j == i
  {
    if items[0].TraitDef? && l == 0 {
      i := 0;
      assert items[..0] == [];
      forall j | 0 <= j < |items| && items[j].TraitDef? && TraitCount(items[..j]) == l
        ensures j == i
      {
        if j > 0 {
          assert false;
        }
      }
    } else {
      var l' := if items[0].TraitDef? then l - 1 else l;
      var i' := TraitAtIndex(items[1..], l');
      i := i' + 1;
      assert items[..i][1..] == items[1..][..i'];
      forall j | 0 <= j < |items| && items[j].TraitDef? && TraitCount(items[..j]) == l
        ensures j == i
      {
        if j == 0 {
          assert items[..0] == [];
        } else {
          assert items[..j][1..] == items[1..][..j - 1];
        }
      }
    }
  }

  // ---------------------------------------------------------------------
  // Add trait

  /** The two shapes a new trait takes: `trait X {}` and `trait X<T> {}`. */
  function BareTrait(name: string, generic: bool): Item {
    TraitDef(name, if generic then Generics([TypeParam("T", [])], []) else NoGenerics, [], [])
  }

  /** `AddTraitMutator::mutate` (one mutation point): a trait under the
      first free `NewTrait` name, generic or not by a coin flip, appended
      at the end of the file; it fails, leaving the file as it was,
      exactly when all 256 names are taken. */
  method AddTraitMutate(file: File) returns (r: Outcome)
    ensures !r.mutated <==>
              forall i :: 0 <= i < AddItems.NAME_TRIES ==> AddItems.TraitNameCandidate(i) in AddItems.UsedNames(file)
    ensures !r.mutated ==> r.file == file
    ensures r.mutated ==> |r.file| == |file| + 1 && r.file[..|file|] == file
    ensures r.mutated ==>
              r.file[|file|].TraitDef? && r.file[|file|].name !in AddItems.UsedNames(file) &&
              (r.file[|file|] == BareTrait(r.file[|file|].name, false) ||
               r.file[|file|] == BareTrait(r.file[|file|].name, true))
  {
    var info := FromFile(file);
    var used := (set n | n in info.traits) + (set n | n in info.types);
    assert used == AddItems.UsedNames(file);
    var picked := AddItems.PickTraitName(used);
    if picked.None? {
      return Outcome(file, false);
    }
    var generic: bool :| true;
    r := Outcome(file + [BareTrait(picked.value, generic)], true);
    assert r.file[..|file|] == file;
  }

  // ---------------------------------------------------------------------
  // Add impl

  predicate TypeParamsOnly(ps: seq<GenericParam>) {
    forall j :: 0 <= j < |ps| ==> ps[j].TypeParam?
  }

  /** `only_type_params`: the parameters when all are type parameters,
      none as soon as one is a lifetime or a const parameter. */
  method OnlyTypeParams(g: Generics) returns (r: Option<seq<GenericParam>>)
    ensures r.None? <==> !TypeParamsOnly(g.params)
    ensures r.Some? ==> r.value == g.params
  {
    for k := 0 to |g.params|
      invariant TypeParamsOnly(g.params[..k])
    {
      if !g.params[k].TypeParam? {
        assert g.params[..k + 1][k] == g.params[k];
        return None;
      }
      assert g.params[..k + 1] == g.params[..k] + [g.params[k]];
    }
    assert g.params[..|g.params|] == g.params;
    return Some(g.params);
  }

  /** A trait member an impl must define here: a method or an associated
      type without a default. Required consts are not generated. */
  predicate SimpleRequired(m: TraitMember) {
    (m.Method? && m.body.None?) || (m.AssocType? && m.default.None?)
  }

  /** The impl member written for a required member: the associated type
      bound to the first file type (or `i32`), without generics; the
      method with its signature and an `unimplemented!()` body. */
  function SimpleImpl(m: TraitMember, types: seq<string>): ImplMember
    requires SimpleRequired(m)
  {
    if m.AssocType? then AssocTypeDef(m.name, NoGenerics, IdentTy(if types != [] then types[0] else "i32"))
    else MethodDef(m.sig, TraitPattern.UnimplementedBody)
  }

  function ImplFor(types: seq<string>): TraitMember -> seq<ImplMember> {
    (m: TraitMember) => if SimpleRequired(m) then [SimpleImpl(m, types)] else []
  }

  /** `make_impl_items_for_trait`: one impl member per required member, in
      the trait's order, and nothing else. */
  method MakeImplItems(ms: seq<TraitMember>, types: seq<string>) returns (out: seq<ImplMember>)
    ensures out == FlatMap(ms, ImplFor(types))
    ensures forall j :: 0 <= j < |ms| && SimpleRequired(ms[j]) ==> SimpleImpl(ms[j], types) in out
    ensures forall x :: x in out ==> exists j :: 0 <= j < |ms| && SimpleRequired(ms[j]) && x == SimpleImpl(ms[j], types)
  {
    out := [];
    for k := 0 to |ms|
      invariant out == FlatMap(ms[..k], ImplFor(types))
    {
      FlatMapStep(ms, ImplFor(types), k);
      if SimpleRequired(ms[k]) {
        out := out + [SimpleImpl(ms[k], types)];
      }
    }
    assert ms[..|ms|] == ms;
    forall x
      ensures x in out <==> exists j :: 0 <= j < |ms| && x in ImplFor(types)(ms[j])
    {
      FlatMapMember(ms, ImplFor(types), x);
    }
    forall j | 0 <= j < |ms| && SimpleRequired(ms[j])
      ensures SimpleImpl(ms[j], types) in out
    {
      assert SimpleImpl(ms[j], types) in ImplFor(types)(ms[j]);
    }
  }

  /** What a generated impl satisfies beyond `AddItems.ImplHeader`: the trait
      and the type have only type parameters, and the impl's members are
      the generated ones exactly when the trait has a required method or
      associated type. */
  ghost predicate TypeOnlyImpl(file: File, types: seq<string>, it: Item) {
    && AddItems.ImplHeader(file, types, it)
    && var tr := AddItems.FindTrait(file, it.traitRef.value.segments[0]).value;
       var ty := AddItems.FindTypeGenerics(file, it.selfTy.segments[0]).value;
    && TypeParamsOnly(tr.generics.params) && TypeParamsOnly(ty.params)
    && it.implMembers == (if AddItems.HasRequiredItems(tr.members) then FlatMap(tr.members, ImplFor(types)) else [])
  }

  /** One attempt of the loop for a drawn trait and type: none when the
      edge exists, the trait or the type is not defined in the file, or
      either has a lifetime or const parameter. */
  method TryImpl(file: File, info: TtdnInfo, tr: string, ty: string) returns (r: Option<Item>)
    requires forall p :: p in info.implEdges <==> p in RawInfo(file).implEdges
    requires tr in RawInfo(file).traits && ty in RawInfo(file).types
    ensures r.Some? ==> TypeOnlyImpl(file, info.types, r.value)
    ensures (ty, tr) in RawInfo(file).implEdges ==> r.None?
  {
    if (ty, tr) in info.implEdges {
      return None;
    }
    var trDef := AddItems.FindTrait(file, tr);
    var tyGenerics := AddItems.FindTypeGenerics(file, ty);
    if trDef.None? || tyGenerics.None? {
      return None;
    }
    var trParams := OnlyTypeParams(trDef.value.generics);
    if trParams.None? {
      return None;
    }
    var tyParams := OnlyTypeParams(tyGenerics.value);
    if tyParams.None? {
      return None;
    }
    var items := [];
    if AddItems.HasRequiredItems(trDef.value.members) {
      items := MakeImplItems(trDef.value.members, info.types);
    }
    var it := AddItems.BuildHeader(file, info.types, tr, ty, items);
    r := Some(it);
  }

  /** `AddImplMutator::mutate`: with no trait or no type in the file it
      fails; otherwise it draws up to 12 (trait, type) pairs and appends
      the impl of the first that works. On failure the file is unchanged;
      on success exactly one impl is appended, for a pair the file had no
      impl for. `info` is the TTDN the mutator builds. */
  method AddImplMutate(file: File) returns (r: Outcome, ghost info: TtdnInfo)
    ensures RawInfo(file).traits == [] || RawInfo(file).types == [] ==> !r.mutated
    ensures !r.mutated ==> r.file == file
    ensures r.mutated ==> |r.file| == |file| + 1 && r.file[..|file|] == file
    ensures r.mutated ==> TypeOnlyImpl(file, info.types, r.file[|file|])
    ensures forall n :: n in info.types <==> n in RawInfo(file).types
  {
    var ttdn := FromFile(file);
    info := ttdn;
    if ttdn.traits == [] || ttdn.types == [] {
      assert forall n :: n !in RawInfo(file).traits || n !in RawInfo(file).types;
      return Outcome(file, false), info;
    }
    for attempt := 0 to AddItems.IMPL_ATTEMPTS {
      var i :| 0 <= i < |ttdn.traits|;
      var j :| 0 <= j < |ttdn.types|;
      var made := TryImpl(file, ttdn, ttdn.traits[i], ttdn.types[j]);
      if made.Some? {
        r := Outcome(file + [made.value], true);
        assert r.file[..|file|] == file;
        return;
      }
    }
    r := Outcome(file, false);
  }
}
