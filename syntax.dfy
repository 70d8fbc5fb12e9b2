/** The abstract Rust source file the mutation tool works on: items with
    their generics, bounds, where-predicates, members and signatures, type
    trees, and small expression trees for function and method bodies and
    impl consts. Items nested inside function bodies or modules are not
    represented, and neither are the other places an expression can stand
    (top-level `const` and `static` initialisers, trait const defaults,
    enum discriminants, array lengths and const arguments inside types,
    literal patterns). Types are kept only where the mutators' own code
    reads them (signatures, impl headers, where-predicates, associated type
    definitions, the last segment's generic arguments); the types a full
    syntax walk also reaches (let annotations, casts and turbofish
    arguments in bodies, `const` and `static` item types, type-parameter
    defaults, generic arguments inside bounds and supertraits, arguments of
    non-final path segments, a qualified self's trait arguments) are not
    represented. Integer literals carry no type suffix. */
module Syntax {
  import opened Wrappers
  import opened Text

  /** A type. `PathTy` is a path type without a qualified self (`a::B<T>`:
      the path segments and the generic arguments of the last segment);
      `QSelfTy` is `<Q as Trait>::Assoc`; `OtherTy` stands for tuples,
      slices, arrays and the like, with their component types. `ConstArg`
      is a const generic argument inside an argument list (`Buf<4>`). */
  datatype Ty =
    | PathTy(segments: seq<string>, args: seq<Ty>)
    | QSelfTy(qself: Ty, tr: string, assoc: string)
    | RefTy(lifetime: Option<string>, mutable: bool, elem: Ty)
    | OtherTy(key: string, elems: seq<Ty>)
    | ConstArg(value: nat)

  /** The path type naming a single identifier. */
  function IdentTy(name: string): Ty {
    PathTy([name], [])
  }

  /** `Type::Path(tp)` with `tp.path.get_ident()`: the identifier when the
      type is a bare identifier. */
  function TyIdent(t: Ty): (r: Option<string>)
    ensures r.Some? <==> t.PathTy? && |t.segments| == 1 && t.args == []
    ensures r.Some? ==> t == IdentTy(r.value)
  {
    if t.PathTy? && |t.segments| == 1 && t.args == [] then Some(t.segments[0]) else None
  }

  /** The token text of a type with whitespace removed (`normalize_tokens`). */
  function Tokens(t: Ty): string
    decreases t, 1
  {
    match t
    case PathTy(segs, args) =>
      JoinPath(segs) + (if args == [] then "" else "<" + TokensList(args, t) + ">")
    case QSelfTy(q, tr, a) => "<" + Tokens(q) + "as" + tr + ">::" + a
    case RefTy(lt, m, e) =>
      "&" + (if lt.Some? then "'" + lt.value else "") + (if m then "mut" else "") + Tokens(e)
    case OtherTy(key, elems) => key + "(" + TokensList(elems, t) + ")"
    case ConstArg(v) => NatToDigits(v)
  }

  /** The comma-separated token text of the component types of `parent`. */
  function TokensList(ts: seq<Ty>, ghost parent: Ty): string
    requires forall i :: 0 <= i < |ts| ==> ts[i] < parent
    decreases parent, 0, |ts|
  {
    if ts == [] then ""
    else if |ts| == 1 then Tokens(ts[0])
    else Tokens(ts[0]) + "," + TokensList(ts[1..], parent)
  }

  function JoinPath(segs: seq<string>): string {
    if segs == [] then ""
    else if |segs| == 1 then segs[0]
    else segs[0] + "::" + JoinPath(segs[1..])
  }

  /** A bound: a trait named by a single identifier, or anything else
      (a lifetime, a path with arguments) by its token text. */
  datatype Bound = TraitBound(name: string) | OtherBound(key: string)

  /** The single-identifier traits among `bounds`
      (`TypeParamBound::Trait` with `path.get_ident()`). */
  function BoundTraits(bounds: seq<Bound>): (r: set<string>)
    ensures forall n :: n in r <==> TraitBound(n) in bounds
  {
    if bounds == [] then {}
    else (if bounds[0].TraitBound? then {bounds[0].name} else {}) + BoundTraits(bounds[1..])
  }

  /** Whether `bounds` already names trait `tr` (`has_bound`). */
  predicate HasBound(bounds: seq<Bound>, tr: string) {
    TraitBound(tr) in bounds
  }

  datatype GenericParam =
    | TypeParam(name: string, bounds: seq<Bound>)
    | LifetimeParam(name: string, outlives: seq<string>)
    | ConstParam(name: string)

  /** A where-predicate: `Ty: Bounds`, an associated-type equality
      `<Q as Trait>::Assoc = Ty`, or a lifetime predicate by its text. */
  datatype WherePred = TypePred(bounded: Ty, bounds: seq<Bound>) | EqPred(lhs: Ty, rhs: Ty) | LifetimePred(key: string)

  datatype Generics = Generics(params: seq<GenericParam>, preds: seq<WherePred>)

  const NoGenerics := Generics([], [])

  /** The names of the type parameters, in order (`local_type_params`). */
  function TypeParamNames(ps: seq<GenericParam>): (r: seq<string>)
    ensures |r| <= |ps|
    ensures forall n :: n in r <==> exists b :: TypeParam(n, b) in ps
  {
    if ps == [] then []
    else
      (if ps[0].TypeParam? then [ps[0].name] else []) + TypeParamNames(ps[1..])
  }

  /** The names of the lifetime parameters, in order. */
  function LifetimeNames(ps: seq<GenericParam>): (r: seq<string>)
    ensures |r| <= |ps|
    ensures forall n :: n in r <==> exists o :: LifetimeParam(n, o) in ps
  {
    if ps == [] then []
    else
      (if ps[0].LifetimeParam? then [ps[0].name] else []) + LifetimeNames(ps[1..])
  }

  /** The first lifetime parameter, if any. */
  function FirstLifetime(ps: seq<GenericParam>): (r: Option<string>)
    ensures r.Some? ==> r.value in LifetimeNames(ps)
    ensures r.None? ==> LifetimeNames(ps) == []
  {
    if ps == [] then None
    else if ps[0].LifetimeParam? then Some(ps[0].name)
    else FirstLifetime(ps[1..])
  }

  /** A function argument: `self` (by value, or by reference with an
      optional lifetime) or a typed pattern. */
  datatype FnArg = Receiver(reference: bool, lifetime: Option<string>, mutable: bool) | Typed(ty: Ty)

  datatype Signature = Signature(name: string, generics: Generics, inputs: seq<FnArg>, output: Option<Ty>)

  /** The binary operators; `OtherOp` covers comparisons and compound
      assignments. */
  datatype BinOp =
    | Add | Sub | Mul | Div | Rem | And | Or | BitAnd | BitOr | BitXor | Shl | Shr
    | OtherOp(key: string)

  datatype Lit = IntLit(value: int) | BoolLit(b: bool) | CharLit(c: char) | OtherLit(key: string)

  datatype Expr =
    | Binary(op: BinOp, left: Expr, right: Expr)
    | LitExpr(lit: Lit)
    | BlockExpr(block: Block)
    | OtherExpr(key: string, children: seq<Expr>)

  datatype Stmt = LetStmt(init: Option<Expr>) | ExprStmt(expr: Expr) | OtherStmt(key: string)

  datatype Block = Block(stmts: seq<Stmt>)

  /** Members of a trait. A declaration without a default is "required". */
  datatype TraitMember =
    | AssocType(name: string, generics: Generics, bounds: seq<Bound>, default: Option<Ty>)
    | AssocConst(name: string, ty: Ty, hasDefault: bool)
    | Method(sig: Signature, body: Option<Block>)
    | OtherTraitMember(key: string)

  /** Members of an impl block. */
  datatype ImplMember =
    | AssocTypeDef(name: string, generics: Generics, ty: Ty)
    | ConstDef(name: string, ty: Ty, value: Expr)
    | MethodDef(sig: Signature, body: Block)
    | OtherImplMember(key: string)

  /** The trait path of `impl Path for T`. */
  datatype TraitRef = TraitRef(segments: seq<string>, args: seq<Ty>)

  /** The trait identifier when the path is a bare identifier. */
  function TraitRefIdent(r: TraitRef): (n: Option<string>)
    ensures n.Some? <==> |r.segments| == 1 && r.args == []
  {
    if |r.segments| == 1 && r.args == [] then Some(r.segments[0]) else None
  }

  datatype Item =
    | TraitDef(name: string, generics: Generics, supertraits: seq<Bound>, members: seq<TraitMember>)
    | ImplDef(generics: Generics, traitRef: Option<TraitRef>, selfTy: Ty, implMembers: seq<ImplMember>)
    | StructDef(name: string, generics: Generics, fields: seq<Ty>)
    | EnumDef(name: string, generics: Generics, fields: seq<Ty>)
    | FnDef(sig: Signature, body: Block)
    | OtherItem(key: string)

  /** A source file: its top-level items in order. */
  type File = seq<Item>
}
