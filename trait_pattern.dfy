/** The shapes of the traits the add-trait mutator creates, the inference
    of a trait's shape from its members, and the impl members generated
    for a trait's required items. */
module TraitPattern {
  import opened Wrappers
  import opened Syntax
  import opened Flatten

  datatype Pattern =
    | BasicPattern
    | AssocTypePattern
    | GatPattern
    | AssocTypeAndConstPattern
    | ConstGenericPattern

  /** `choose_pattern`'s match on the drawn number in `0..5`. */
  function PatternOf(n: nat): Pattern {
    match n
    case 0 => BasicPattern
    case 1 => AssocTypePattern
    case 2 => GatPattern
    case 3 => AssocTypeAndConstPattern
    case _ => ConstGenericPattern
  }

  /** The number that selects a pattern. */
  function PatternIndex(p: Pattern): (n: nat)
    ensures n < 5
  {
    match p
    case BasicPattern => 0
    case AssocTypePattern => 1
    case GatPattern => 2
    case AssocTypeAndConstPattern => 3
    case ConstGenericPattern => 4
  }

  /** The five draws select the five patterns, one each. */
  lemma PatternOfIndex(p: Pattern, n: nat)
    requires n < 5
    ensures PatternOf(PatternIndex(p)) == p
    ensures PatternIndex(PatternOf(n)) == n
  {
  }

  /** `choose_pattern`: a pattern drawn from the five. */
  method ChoosePattern() returns (p: Pattern)
    ensures PatternOf(PatternIndex(p)) == p
  {
    var n :| 0 <= n < 5;
    p := PatternOf(n);
  }

  /** `Self::Assoc`. */
  const SelfAssoc := PathTy(["Self", "Assoc"], [])

  /** The members of each pattern's trait. */
  function PatternMembers(p: Pattern): seq<TraitMember> {
    match p
    case BasicPattern => []
    case AssocTypePattern => [AssocType("Assoc", NoGenerics, [], None)]
    case GatPattern => [AssocType("Item", Generics([LifetimeParam("a", [])], []), [], None)]
    case AssocTypeAndConstPattern =>
      [ AssocType("Assoc", NoGenerics, [], None),
        AssocConst("C", SelfAssoc, false),
        Method(Signature("f", NoGenerics, [Receiver(true, None, false)], Some(SelfAssoc)), None) ]
    case ConstGenericPattern => []
  }

  /** `build_trait`: a trait named `ident` of the given shape. Only the
      const-generic shape has a generic parameter (`const N: usize`). */
  function BuildTrait(ident: string, p: Pattern): (it: Item)
    ensures it.TraitDef? && it.name == ident && it.supertraits == []
    ensures it.members == PatternMembers(p)
    ensures (it.generics.params != []) <==> p == ConstGenericPattern
  {
    var g := if p == ConstGenericPattern then Generics([ConstParam("N")], []) else NoGenerics;
    TraitDef(ident, g, [], PatternMembers(p))
  }

  predicate HasConstMember(ms: seq<TraitMember>) {
    exists j :: 0 <= j < |ms| && ms[j].AssocConst?
  }

  predicate HasGenericAssocType(ms: seq<TraitMember>) {
    exists j :: 0 <= j < |ms| && ms[j].AssocType? && ms[j].generics.params != []
  }

  predicate HasPlainAssocType(ms: seq<TraitMember>) {
    exists j :: 0 <= j < |ms| && ms[j].AssocType? && ms[j].generics.params == []
  }

  /** The shape a trait's members show: a const first, then a generic
      associated type, then any associated type. */
  function Inferred(ms: seq<TraitMember>): Pattern {
    if HasConstMember(ms) then AssocTypeAndConstPattern
    else if HasGenericAssocType(ms) then GatPattern
    else if HasPlainAssocType(ms) then AssocTypePattern
    else BasicPattern
  }

  /** `infer_pattern`: one pass over the members setting three flags. It
      never answers the const-generic shape. */
  method InferPattern(tr: Item) returns (p: Pattern)
    requires tr.TraitDef?
    ensures p == Inferred(tr.members)
    ensures p != ConstGenericPattern
  {
    var hasAssoc, hasGat, hasConst := false, false, false;
    var ms := tr.members;
    for k := 0 to |ms|
      invariant hasConst <==> HasConstMember(ms[..k])
      invariant hasGat <==> HasGenericAssocType(ms[..k])
      invariant hasAssoc <==> HasPlainAssocType(ms[..k])
    {
      assert forall j :: 0 <= j < k ==> ms[..k + 1][j] == ms[..k][j];
      assert ms[..k + 1][k] == ms[k];
      match ms[k] {
        case AssocType(_, g, _, _) =>
          if g.params != [] {
            hasGat := true;
          } else {
            hasAssoc := true;
          }
        case AssocConst(_, _, _) =>
          hasConst := true;
        case Method(_, _) =>
        case OtherTraitMember(_) =>
      }
    }
    assert ms[..|ms|] == ms;
    p := if hasConst then AssocTypeAndConstPattern
         else if hasGat then GatPattern
         else if hasAssoc then AssocTypePattern
         else BasicPattern;
  }

  /** Inference recovers the shape a trait was built with, except that a
      const-generic trait has no members and reads as basic. */
  lemma InferBuiltPattern(ident: string, p: Pattern)
    ensures Inferred(BuildTrait(ident, p).members) == (if p == ConstGenericPattern then BasicPattern else p)
  {
    var ms := PatternMembers(p);
    match p {
      case BasicPattern =>
      case ConstGenericPattern =>
      case AssocTypePattern =>
        assert ms[0].AssocType? && ms[0].generics.params == [];
      case GatPattern =>
        assert ms[0].AssocType? && ms[0].generics.params != [];
      case AssocTypeAndConstPattern =>
        assert ms[1].AssocConst?;
    }
  }

  // ---------------------------------------------------------------------
  // Impl members for a trait's required items

  /** The primitive types an associated type is bound to when the trait
      has a const. */
  const Primitives: seq<string> :=
    ["u8", "u16", "u32", "u64", "u128", "i8", "i16", "i32", "i64", "i128", "bool", "char", "usize", "isize"]

  const UnsignedNames: seq<string> := ["u8", "u16", "u32", "u64", "u128", "usize"]
  const SignedNames: seq<string> := ["i8", "i16", "i32", "i64", "i128", "isize"]
  const ConstChars: seq<char> := ['a', 'b', 'c', 'X', 'Y', 'Z', '0', '9']

  /** The values `generate_const_value` may produce for a type name:
      `true`/`false` for bool, one of eight characters for char, a literal
      in [0, 1000) for unsigned names, in [-1000, 1000) for signed names,
      and `0` for anything else. */
  predicate GeneratedValue(typeName: string, e: Expr) {
    if typeName == "bool" then e.LitExpr? && e.lit.BoolLit?
    else if typeName == "char" then e.LitExpr? && e.lit.CharLit? && e.lit.c in ConstChars
    else if typeName in UnsignedNames then e.LitExpr? && e.lit.IntLit? && 0 <= e.lit.value < 1000
    else if typeName in SignedNames then e.LitExpr? && e.lit.IntLit? && -1000 <= e.lit.value < 1000
    else e == LitExpr(IntLit(0))
  }

  /** `generate_const_value` as written: a random value of the shape the
      type name selects. */
  method GenerateConstValue(typeName: string) returns (e: Expr)
    ensures GeneratedValue(typeName, e)
  {
    if typeName == "bool" {
      var b :| b in {false, true};
      e := LitExpr(BoolLit(b));
    } else if typeName == "char" {
      var i :| 0 <= i < |ConstChars|;
      e := LitExpr(CharLit(ConstChars[i]));
    } else if typeName in UnsignedNames {
      var v :| 0 <= v < 1000;
      e := LitExpr(IntLit(v));
    } else if typeName in SignedNames {
      var v :| -1000 <= v < 1000;
      e := LitExpr(IntLit(v));
    } else {
      e := LitExpr(IntLit(0));
    }
  }

  /** The value range of a Rust integer type, when `typeName` is one. */
  function IntRange(typeName: string): Option<(int, int)> {
    match typeName
    case "u8" => Some((0, 0x100))
    case "u16" => Some((0, 0x1_0000))
    case "u32" => Some((0, 0x1_0000_0000))
    case "u64" => Some((0, 0x1_0000_0000_0000_0000))
    case "usize" => Some((0, 0x1_0000_0000_0000_0000))
    case "u128" => Some((0, 0x1_0000_0000_0000_0000_0000_0000_0000_0000))
    case "i8" => Some((-0x80, 0x80))
    case "i16" => Some((-0x8000, 0x8000))
    case "i32" => Some((-0x8000_0000, 0x8000_0000))
    case "i64" => Some((-0x8000_0000_0000_0000, 0x8000_0000_0000_0000))
    case "isize" => Some((-0x8000_0000_0000_0000, 0x8000_0000_0000_0000))
    case "i128" => Some((-0x8000_0000_0000_0000_0000_0000_0000_0000, 0x8000_0000_0000_0000_0000_0000_0000_0000))
    case _ => None
  }

  /** An integer literal that the const's type can hold. */
  predicate FitsType(typeName: string, e: Expr) {
    IntRange(typeName).Some? && e.LitExpr? && e.lit.IntLit? ==>
      IntRange(typeName).value.0 <= e.lit.value < IntRange(typeName).value.1
  }

  /** As written, `const C: u8 = 999;` and `const C: i8 = -1000;` can be
      generated: neither literal fits its type. */
  lemma GeneratedValueOverflows()
    ensures GeneratedValue("u8", LitExpr(IntLit(999))) && !FitsType("u8", LitExpr(IntLit(999)))
    ensures GeneratedValue("i8", LitExpr(IntLit(-1000))) && !FitsType("i8", LitExpr(IntLit(-1000)))
  {
  }

  /** The intended values: as `GeneratedValue`, with integer literals also
      inside their type's range. */
  predicate FittingValue(typeName: string, e: Expr) {
    GeneratedValue(typeName, e) && FitsType(typeName, e)
  }

  /** `generate_const_value` with the draw for integer types clipped to
      what the type holds: every value it produces fits. */
  method GenerateFittingConstValue(typeName: string) returns (e: Expr)
    ensures FittingValue(typeName, e)
  {
    if typeName in UnsignedNames {
      var hi := if typeName == "u8" then 0x100 else 1000;
      var v :| 0 <= v < hi;
      e := LitExpr(IntLit(v));
    } else if typeName in SignedNames {
      var lo, hi := if typeName == "i8" then -0x80 else -1000, if typeName == "i8" then 0x80 else 1000;
      var v :| lo <= v < hi;
      e := LitExpr(IntLit(v));
    } else {
      e := GenerateConstValue(typeName);
    }
  }

  /** A trait member the impl must define: no default type, value or
      body. */
  predicate Required(m: TraitMember) {
    match m
    case AssocType(_, _, _, d) => d.None?
    case AssocConst(_, _, hasDefault) => !hasDefault
    case Method(_, body) => body.None?
    case OtherTraitMember(_) => false
  }

  function RequiredOf(m: TraitMember): seq<TraitMember> {
    if Required(m) then [m] else []
  }

  function RequiredMembers(ms: seq<TraitMember>): seq<TraitMember> {
    FlatMap(ms, RequiredOf)
  }

    /** The right-hand side for a chosen base type: `&'lt Base` when the
      associated type has a lifetime parameter `'lt`, else the base. */
  function RhsFor(g: Generics, base: string): Ty {
    match FirstLifetime(g.params)
    case Some(lt) => RefTy(Some(lt), false, IdentTy(base))
    case None => IdentTy(base)
  }

  /** The base type name of a generated right-hand side. */
  function BaseName(t: Ty): Option<string> {
    if t.RefTy? then TyIdent(t.elem) else TyIdent(t)
  }

  lemma BaseNameOfRhs(g: Generics, base: string)
    ensures BaseName(RhsFor(g, base)) == Some(base)
  {
  }

  /** The base type last chosen for an associated type among `items`. */
  function LastChoice(items: seq<ImplMember>): Option<string> {
    if items == [] then None
    else if items[|items| - 1].AssocTypeDef? then BaseName(items[|items| - 1].ty)
    else LastChoice(items[..|items| - 1])
  }

  /** The code of `unimplemented!()` bodies. */
  const UnimplementedBody := Block([ExprStmt(OtherExpr("unimplemented!()", []))])

  /** What an impl member generated for required member `m` looks like:
      an associated type bound to a base from `pool` (behind `&'lt` for a
      lifetime-generic one); a const whose value `generate_const_value`
      draws for the base last chosen (`0` when none was), an integer
      literal that need not fit the const's type; a method with an
      `unimplemented!()` body. */
  predicate Implements(m: TraitMember, item: ImplMember, pool: seq<string>, choice: Option<string>) {
    match m
    case AssocType(n, g, _, _) =>
      item.AssocTypeDef? && item.name == n && item.generics == g
      && exists b :: b in pool && item.ty == RhsFor(g, b)
    case AssocConst(n, ty, _) =>
      item.ConstDef? && item.name == n && item.ty == ty
      && (if choice.Some? then GeneratedValue(choice.value, item.value) else item.value == LitExpr(IntLit(0)))
    case Method(sig, _) => item == MethodDef(sig, UnimplementedBody)
    case OtherTraitMember(_) => false
  }

  /** The pool of base types: the primitives when the trait has a const,
      else the file's types and `i32`. */
  function BasePool(ms: seq<TraitMember>, types: seq<string>): seq<string> {
    if HasConstMember(ms) then Primitives else types + ["i32"]
  }

  /** `make_impl_items_for_trait`: one impl member per required trait
      member, in order, each implementing it. */
  method MakeImplItems(ms: seq<TraitMember>, types: seq<string>) returns (out: seq<ImplMember>)
    ensures |out| == |RequiredMembers(ms)|
    ensures forall i :: 0 <= i < |out| ==>
      Implements(RequiredMembers(ms)[i], out[i], BasePool(ms, types), LastChoice(out[..i]))
  {
    var hasConst := exists j :: 0 <= j < |ms| && ms[j].AssocConst?;
    var pool := BasePool(ms, types);
    var choice: Option<string> := None;
    out := [];
    for k := 0 to |ms|
      invariant |out| == |RequiredMembers(ms[..k])|
      invariant forall i :: 0 <= i < |out| ==>
        Implements(RequiredMembers(ms[..k])[i], out[i], pool, LastChoice(out[..i]))
      invariant hasConst ==> choice == LastChoice(out)
    {
      FlatMapStep(ms, RequiredOf, k);
      var item := MakeImplItem(ms[k], pool, hasConst, choice);
      if item.Some? {
        ImplementedAppend(out, RequiredMembers(ms[..k]), ms[k], item.value, pool);
        out := out + [item.value];
        if hasConst && item.value.AssocTypeDef? {
          choice := BaseName(item.value.ty);
        }
      } else {
        assert RequiredOf(ms[k]) == [];
      }
    }
    assert ms[..|ms|] == ms;
  }

  /** One step of `make_impl_items_for_trait`: the impl member for a
      required trait member, none for any other. */
  method MakeImplItem(m: TraitMember, pool: seq<string>, hasConst: bool, choice: Option<string>)
    returns (item: Option<ImplMember>)
    requires |pool| > 0
    requires m.AssocConst? ==> hasConst
    ensures item.Some? <==> Required(m)
    ensures item.Some? ==> Implements(m, item.value, pool, choice)
    ensures item.Some? && item.value.AssocTypeDef? ==> BaseName(item.value.ty).Some?
  {
    item := None;
    match m {
      case AssocType(n, g, _, d) =>
        if d.None? {
          var i :| 0 <= i < |pool|;
          BaseNameOfRhs(g, pool[i]);
          item := Some(AssocTypeDef(n, g, RhsFor(g, pool[i])));
        }
      case AssocConst(n, ty, hasDefault) =>
        if !hasDefault {
          var value := LitExpr(IntLit(0));
          if choice.Some? {
            value := GenerateConstValue(choice.value);
          }
          item := Some(ConstDef(n, ty, value));
        }
      case Method(sig, body) =>
        if body.None? {
          item := Some(MethodDef(sig, UnimplementedBody));
        }
      case OtherTraitMember(_) =>
    }
  }

  /** Appending an impl member that implements the next required member
      keeps the correspondence. */
  lemma ImplementedAppend(out: seq<ImplMember>, req: seq<TraitMember>, m: TraitMember, item: ImplMember,
                          pool: seq<string>)
    requires |out| == |req|
    requires forall i :: 0 <= i < |out| ==> Implements(req[i], out[i], pool, LastChoice(out[..i]))
    requires Implements(m, item, pool, LastChoice(out))
    ensures forall i :: 0 <= i < |out| + 1 ==>
      Implements((req + [m])[i], (out + [item])[i], pool, LastChoice((out + [item])[..i]))
  {
    var r := out + [item];
    forall i | 0 <= i < |r|
      ensures Implements((req + [m])[i], r[i], pool, LastChoice(r[..i]))
    {
      if i < |out| {
        assert r[..i] == out[..i];
      } else {
        assert r[..i] == out;
      }
    }
  }
}
