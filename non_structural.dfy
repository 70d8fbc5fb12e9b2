/** The non-structural mutators: flipping a binary operator, incrementing
    an integer literal, negating a boolean literal, replacing a binary
    expression by `0`, and injecting a statement at the start of a block.
    Each has a collector that counts its sites in visiting order and an
    applier that walks the file in the same order, counting sites, and
    edits the site its counter reaches at the target. The five appliers
    differ only in what a site is and how it is edited, so they are one
    class here, parameterised by the mutation kind. */
module NonStructural {
  import opened Wrappers
  import opened Syntax
  import ProjectionRewrite

  // ---------------------------------------------------------------------
  // Operators and literals

  /** The operators `is_supported_bin_op` accepts: every arithmetic,
      logical, bitwise and shift operator; comparisons and compound
      assignments are not. */
  predicate SupportedOp(op: BinOp) {
    !op.OtherOp?
  }

  /** The operator list of `get_random_bin_op`. */
  const AllOps: seq<BinOp> := [Add, Sub, Mul, Div, Rem, And, Or, BitAnd, BitOr, BitXor, Shl, Shr]

  lemma AllOpsSupported(op: BinOp)
    requires op in AllOps
    ensures SupportedOp(op)
  {
    var i :| 0 <= i < |AllOps| && AllOps[i] == op;
  }

  /** `ops` without the operators of the same kind as `op`, in order. */
  function OtherKinds(ops: seq<BinOp>, op: BinOp): (r: seq<BinOp>)
    ensures forall x :: x in r <==> x in ops && x != op
  {
    if ops == [] then []
    else (if ops[0] != op then [ops[0]] else []) + OtherKinds(ops[1..], op)
  }

  /** Of two different operators at least one is kept. */
  lemma OtherKindsNonEmpty(ops: seq<BinOp>, op: BinOp)
    requires |ops| >= 2 && ops[0] != ops[1]
    ensures OtherKinds(ops, op) != []
  {
    if ops[0] == op {
      assert ops[1] in OtherKinds(ops, op);
    }
  }

  /** `get_random_bin_op`: a supported operator of another kind than
      `op`, the random pick being `draw` modulo the number of choices.
      There is always a choice, so the fallback to the first operator is
      never taken. */
  function RandomBinOp(op: BinOp, draw: nat): (r: BinOp)
    ensures SupportedOp(r) && r != op && r in AllOps
  {
    var choices := OtherKinds(AllOps, op);
    OtherKindsNonEmpty(AllOps, op);
    var r := choices[draw % |choices|];
    assert r in AllOps;
    AllOpsSupported(r);
    r
  }

  const I64Min: int := -0x8000_0000_0000_0000
  const I64Max: int := 0x7FFF_FFFF_FFFF_FFFF

  /** `base10_parse::<i64>` succeeds. */
  predicate FitsI64(v: int) {
    I64Min <= v <= I64Max
  }

  /** `i64::wrapping_add(v, 1)`. */
  function WrappingInc(v: int): (r: int)
    requires FitsI64(v)
    ensures FitsI64(r) && r != v
  {
    if v == I64Max then I64Min else v + 1
  }

  /** The increment is `v + 1` modulo 2^64, kept in the `i64` range. */
  lemma WrappingIncModular(v: int)
    requires FitsI64(v)
    ensures (WrappingInc(v) - v - 1) % 0x1_0000_0000_0000_0000 == 0
    ensures v < I64Max ==> WrappingInc(v) == v + 1
  {
  }

  // ---------------------------------------------------------------------
  // Sites

  /** The five mutators; the operator flip carries its random number. */
  datatype Kind = BinOpFlip(draw: nat) | IntLiteralChange | BoolFlip | ReplaceByConstant | InjectControlFlow

  /** An expression site of `k`: a binary expression with a supported
      operator, an integer literal, a boolean literal, or any binary
      expression. The block injection has blocks as sites instead. */
  predicate IsSite(e: Expr, k: Kind) {
    match k
    case BinOpFlip(_) => e.Binary? && SupportedOp(e.op)
    case IntLiteralChange => e.LitExpr? && e.lit.IntLit?
    case BoolFlip => e.LitExpr? && e.lit.BoolLit?
    case ReplaceByConstant => e.Binary?
    case InjectControlFlow => false
  }

  /** `let _injected = 0;`. */
  const Injected: Stmt := LetStmt(Some(LitExpr(IntLit(0))))

  /** The edit at an expression site: another operator, the literal plus
      one with `i64` wrap-around (a literal that does not fit stays as it
      is), the negated boolean, or `0`. */
  function Replace(e: Expr, k: Kind): (r: Expr)
    requires IsSite(e, k)
    ensures k.BinOpFlip? ==> r.Binary? && r.left == e.left && r.right == e.right && SupportedOp(r.op) && r.op != e.op
    ensures k.IntLiteralChange? ==> r.LitExpr? && r.lit.IntLit? && FitsI64(r.lit.value) == FitsI64(e.lit.value)
    ensures k.IntLiteralChange? && FitsI64(e.lit.value) ==> r.lit.value == WrappingInc(e.lit.value)
    ensures k.IntLiteralChange? ==> (r != e <==> FitsI64(e.lit.value))
    ensures k.BoolFlip? ==> r.LitExpr? && r.lit.BoolLit? && r.lit.b != e.lit.b
    ensures k.ReplaceByConstant? ==> r == LitExpr(IntLit(0)) && r != e
    ensures !k.IntLiteralChange? ==> r != e
  {
    match k
    case BinOpFlip(d) => Binary(RandomBinOp(e.op, d), e.left, e.right)
    case IntLiteralChange => if FitsI64(e.lit.value) then LitExpr(IntLit(WrappingInc(e.lit.value))) else e
    case BoolFlip => LitExpr(BoolLit(!e.lit.b))
    case ReplaceByConstant => LitExpr(IntLit(0))
  }

  /** The number of sites of `k` in each part, in visiting order: an
      expression before its operands, a block before its statements. */
  function ExprSites(e: Expr, k: Kind): nat
    decreases e
  {
    (if IsSite(e, k) then 1 else 0) +
    match e
    case Binary(_, a, b) => ExprSites(a, k) + ExprSites(b, k)
    case LitExpr(_) => 0
    case BlockExpr(bl) => BlockSites(bl, k)
    case OtherExpr(_, cs) => ExprsSites(cs, k)
  }

  function ExprsSites(es: seq<Expr>, k: Kind): nat
    decreases es
  {
    if es == [] then 0 else ExprSites(es[0], k) + ExprsSites(es[1..], k)
  }

  function BlockSites(bl: Block, k: Kind): nat
    decreases bl
  {
    (if k.InjectControlFlow? then 1 else 0) + StmtsSites(bl.stmts, k)
  }

  function StmtSites(s: Stmt, k: Kind): nat
    decreases s
  {
    match s
    case LetStmt(init) => if init.Some? then ExprSites(init.value, k) else 0
    case ExprStmt(e) => ExprSites(e, k)
    case OtherStmt(_) => 0
  }

  function StmtsSites(ss: seq<Stmt>, k: Kind): nat
    decreases ss
  {
    if ss == [] then 0 else StmtSites(ss[0], k) + StmtsSites(ss[1..], k)
  }

  /** A trait method's default body. */
  function TraitMemberSites(m: TraitMember, k: Kind): nat {
    if m.Method? && m.body.Some? then BlockSites(m.body.value, k) else 0
  }

  function TraitMembersSites(ms: seq<TraitMember>, k: Kind): nat {
    if ms == [] then 0 else TraitMemberSites(ms[0], k) + TraitMembersSites(ms[1..], k)
  }

  /** An impl constant's value, an impl method's body. */
  function ImplMemberSites(m: ImplMember, k: Kind): nat {
    match m
    case ConstDef(_, _, value) => ExprSites(value, k)
    case MethodDef(_, body) => BlockSites(body, k)
    case _ => 0
  }

  function ImplMembersSites(ms: seq<ImplMember>, k: Kind): nat {
    if ms == [] then 0 else ImplMemberSites(ms[0], k) + ImplMembersSites(ms[1..], k)
  }

  function ItemSites(it: Item, k: Kind): nat {
    match it
    case FnDef(_, body) => BlockSites(body, k)
    case TraitDef(_, _, _, ms) => TraitMembersSites(ms, k)
    case ImplDef(_, _, _, ms) => ImplMembersSites(ms, k)
    case _ => 0
  }

  function ItemsSites(items: seq<Item>, k: Kind): nat {
    if items == [] then 0 else ItemSites(items[0], k) + ItemsSites(items[1..], k)
  }

  /** The collectors of the four expression mutators, and the block
      collector counting every block. */
  function Collect(file: File, k: Kind): nat {
    ItemsSites(file, k)
  }

  // ---------------------------------------------------------------------
  // The edit at the `l`-th site

  /** Each part with the site its counter reaches `l` sites in edited;
      everything else stays. A replaced binary expression is not walked
      any further, so its operands are edited by no one. */
  function RewriteExpr(e: Expr, l: int, k: Kind): Expr
    decreases e, 1
  {
    if l < 0 || l >= ExprSites(e, k) then e
    else if IsSite(e, k) && l == 0 then Replace(e, k)
    else RewriteChildren(e, if IsSite(e, k) then l - 1 else l, k)
  }

  /** The operands, block or sub-expressions of `e`, the `l`-th site
      among them edited. */
  function RewriteChildren(e: Expr, l: int, k: Kind): Expr
    decreases e, 0
  {
    match e
    case Binary(op, a, b) => Binary(op, RewriteExpr(a, l, k), RewriteExpr(b, l - ExprSites(a, k), k))
    case LitExpr(_) => e
    case BlockExpr(bl) => BlockExpr(RewriteBlock(bl, l, k))
    case OtherExpr(key, cs) => OtherExpr(key, RewriteExprs(cs, l, k))
  }

  function RewriteExprs(es: seq<Expr>, l: int, k: Kind): (r: seq<Expr>)
    decreases es
  {
    if l < 0 || l >= ExprsSites(es, k) then es
    else [RewriteExpr(es[0], l, k)] + RewriteExprs(es[1..], l - ExprSites(es[0], k), k)
  }

  /** At its site a block gets `let _injected = 0;` as its first statement. */
  function RewriteBlock(bl: Block, l: int, k: Kind): Block
    decreases bl
  {
    if l < 0 || l >= BlockSites(bl, k) then bl
    else if k.InjectControlFlow? && l == 0 then Block([Injected] + bl.stmts)
    else Block(RewriteStmts(bl.stmts, if k.InjectControlFlow? then l - 1 else l, k))
  }

  function RewriteStmt(s: Stmt, l: int, k: Kind): Stmt
    decreases s
  {
    if l < 0 || l >= StmtSites(s, k) then s
    else
      match s
      case LetStmt(init) => if init.Some? then LetStmt(Some(RewriteExpr(init.value, l, k))) else s
      case ExprStmt(e) => ExprStmt(RewriteExpr(e, l, k))
      case OtherStmt(_) => s
  }

  function RewriteStmts(ss: seq<Stmt>, l: int, k: Kind): seq<Stmt>
    decreases ss
  {
    if l < 0 || l >= StmtsSites(ss, k) then ss
    else [RewriteStmt(ss[0], l, k)] + RewriteStmts(ss[1..], l - StmtSites(ss[0], k), k)
  }

  function RewriteTraitMember(m: TraitMember, l: int, k: Kind): TraitMember {
    if m.Method? && m.body.Some? then m.(body := Some(RewriteBlock(m.body.value, l, k))) else m
  }

  function RewriteTraitMembers(ms: seq<TraitMember>, l: int, k: Kind): seq<TraitMember> {
    if l < 0 || l >= TraitMembersSites(ms, k) then ms
    else [RewriteTraitMember(ms[0], l, k)] + RewriteTraitMembers(ms[1..], l - TraitMemberSites(ms[0], k), k)
  }

  function RewriteImplMember(m: ImplMember, l: int, k: Kind): ImplMember {
    match m
    case ConstDef(n, ty, value) => ConstDef(n, ty, RewriteExpr(value, l, k))
    case MethodDef(sig, body) => MethodDef(sig, RewriteBlock(body, l, k))
    case _ => m
  }

  function RewriteImplMembers(ms: seq<ImplMember>, l: int, k: Kind): seq<ImplMember> {
    if l < 0 || l >= ImplMembersSites(ms, k) then ms
    else [RewriteImplMember(ms[0], l, k)] + RewriteImplMembers(ms[1..], l - ImplMemberSites(ms[0], k), k)
  }

  function RewriteItem(it: Item, l: int, k: Kind): Item {
    match it
    case FnDef(sig, body) => FnDef(sig, RewriteBlock(body, l, k))
    case TraitDef(n, g, sup, ms) => TraitDef(n, g, sup, RewriteTraitMembers(ms, l, k))
    case ImplDef(g, tr, self, ms) => ImplDef(g, tr, self, RewriteImplMembers(ms, l, k))
    case _ => it
  }

  function RewriteItems(items: seq<Item>, l: int, k: Kind): (r: seq<Item>)
    ensures |r| == |items|
  {
    if l < 0 || l >= ItemsSites(items, k) then items
    else [RewriteItem(items[0], l, k)] + RewriteItems(items[1..], l - ItemSites(items[0], k), k)
  }

  // ---------------------------------------------------------------------
  // The edit, one part at a time

  lemma ConsSplit<T>(s: seq<T>)
    requires s != []
    ensures [s[0]] + s[1..] == s
  {
  }

  /** Away from a site at offset zero an expression is edited in its
      children, whether or not the offset falls inside it. */
  lemma {:induction false} ExprAt(e: Expr, l: int, k: Kind)
    requires !(IsSite(e, k) && l == 0)
    ensures RewriteExpr(e, l, k) == RewriteChildren(e, if IsSite(e, k) then l - 1 else l, k)
  {
  }

  lemma {:induction false} ExprsAt(es: seq<Expr>, l: int, k: Kind)
    requires es != []
    ensures RewriteExprs(es, l, k) == [RewriteExpr(es[0], l, k)] + RewriteExprs(es[1..], l - ExprSites(es[0], k), k)
  {
    if l < 0 || l >= ExprsSites(es, k) {
      var h, t := RewriteExpr(es[0], l, k), RewriteExprs(es[1..], l - ExprSites(es[0], k), k);
      assert h == es[0] && t == es[1..];
      ConsSplit(es);
    }
  }

  lemma {:induction false} BlockAt(bl: Block, l: int, k: Kind)
    requires !(k.InjectControlFlow? && l == 0)
    ensures RewriteBlock(bl, l, k) == Block(RewriteStmts(bl.stmts, if k.InjectControlFlow? then l - 1 else l, k))
  {
  }

  /** A statement is edited in its expression, whatever the offset. */
  lemma StmtAt(st: Stmt, l: int, k: Kind)
    ensures st.LetStmt? && st.init.Some? ==> RewriteStmt(st, l, k) == LetStmt(Some(RewriteExpr(st.init.value, l, k)))
    ensures st.ExprStmt? ==> RewriteStmt(st, l, k) == ExprStmt(RewriteExpr(st.expr, l, k))
    ensures !(st.LetStmt? && st.init.Some?) && !st.ExprStmt? ==> RewriteStmt(st, l, k) == st
  {
  }

  lemma {:induction false} StmtsAt(ss: seq<Stmt>, l: int, k: Kind)
    requires ss != []
    ensures RewriteStmts(ss, l, k) == [RewriteStmt(ss[0], l, k)] + RewriteStmts(ss[1..], l - StmtSites(ss[0], k), k)
  {
    if l < 0 || l >= StmtsSites(ss, k) {
      var h, t := RewriteStmt(ss[0], l, k), RewriteStmts(ss[1..], l - StmtSites(ss[0], k), k);
      assert h == ss[0] && t == ss[1..];
      ConsSplit(ss);
    }
  }

  lemma {:induction false} TraitMembersAt(ms: seq<TraitMember>, l: int, k: Kind)
    requires ms != []
    ensures RewriteTraitMembers(ms, l, k) == [RewriteTraitMember(ms[0], l, k)] + RewriteTraitMembers(ms[1..], l - TraitMemberSites(ms[0], k), k)
  {
    if l < 0 || l >= TraitMembersSites(ms, k) {
      var h, t := RewriteTraitMember(ms[0], l, k), RewriteTraitMembers(ms[1..], l - TraitMemberSites(ms[0], k), k);
      assert h == ms[0] && t == ms[1..];
      ConsSplit(ms);
    }
  }

  lemma {:induction false} ImplMembersAt(ms: seq<ImplMember>, l: int, k: Kind)
    requires ms != []
    ensures RewriteImplMembers(ms, l, k) == [RewriteImplMember(ms[0], l, k)] + RewriteImplMembers(ms[1..], l - ImplMemberSites(ms[0], k), k)
  {
    if l < 0 || l >= ImplMembersSites(ms, k) {
      var h, t := RewriteImplMember(ms[0], l, k), RewriteImplMembers(ms[1..], l - ImplMemberSites(ms[0], k), k);
      assert h == ms[0] && t == ms[1..];
      ConsSplit(ms);
    }
  }

  lemma {:induction false} ItemsAt(items: seq<Item>, l: int, k: Kind)
    requires items != []
    ensures RewriteItems(items, l, k) == [RewriteItem(items[0], l, k)] + RewriteItems(items[1..], l - ItemSites(items[0], k), k)
  {
    if l < 0 || l >= ItemsSites(items, k) {
      var h, t := RewriteItem(items[0], l, k), RewriteItems(items[1..], l - ItemSites(items[0], k), k);
      assert h == items[0] && t == items[1..];
      ConsSplit(items);
    }
  }

  // ---------------------------------------------------------------------
  // The applier

  /** The applier of one kind: it walks the file in the collector's
      order, counts the sites it passes, and edits the one its counter
      reaches at the target. */
  class Applier {
    const target: nat
    const kind: Kind
    /** Sites passed so far. */
    var current: nat
    var mutated: bool

    constructor (target: nat, kind: Kind)
      ensures this.target == target && this.kind == kind
      ensures current == 0 && !mutated
    {
      this.target := target;
      this.kind := kind;
      current := 0;
      mutated := false;
    }

    /** Visiting a part that holds `n` sites from counter `c0` passes
        them all, except that replacing a binary expression by `0` skips
        the sites inside it, which can only happen at the target. */
    ghost predicate Advanced(c0: int, n: nat)
      reads this
    {
      current == c0 + n || (kind.ReplaceByConstant? && c0 <= target < c0 + n && target < current <= c0 + n)
    }

    method VisitExpr(e: Expr) returns (r: Expr)
      modifies this
      decreases e
      ensures r == RewriteExpr(e, target - old(current), kind)
      ensures Advanced(old(current), ExprSites(e, kind))
      ensures mutated == (old(mutated) || r != e)
    {
      if IsSite(e, kind) && current == target {
        r := Replace(e, kind);
        mutated := mutated || !kind.IntLiteralChange? || FitsI64(e.lit.value);
        current := current + 1;
        if kind.BinOpFlip? {
          var a := VisitExpr(e.left);
          var b := VisitExpr(e.right);
          r := Binary(r.op, a, b);
        }
        return;
      }
      ghost var c0 := current;
      ExprAt(e, target - c0, kind);
      if IsSite(e, kind) {
        current := current + 1;
      }
      match e
      case Binary(op, a, b) =>
        var ra := VisitExpr(a);
        var rb := VisitExpr(b);
        r := Binary(op, ra, rb);
      case LitExpr(_) =>
        r := e;
      case BlockExpr(bl) =>
        var rbl := VisitBlock(bl);
        r := BlockExpr(rbl);
      case OtherExpr(key, cs) =>
        var rcs := VisitExprs(cs);
        r := OtherExpr(key, rcs);
    }

    method VisitExprs(es: seq<Expr>) returns (r: seq<Expr>)
      modifies this
      decreases es
      ensures r == RewriteExprs(es, target - old(current), kind)
      ensures Advanced(old(current), ExprsSites(es, kind))
      ensures mutated == (old(mutated) || r != es)
    {
      if es == [] {
        return [];
      }
      ExprsAt(es, target - current, kind);
      var h := VisitExpr(es[0]);
      var t := VisitExprs(es[1..]);
      r := [h] + t;
      if h != es[0] || t != es[1..] {
        ProjectionRewrite.ConsDiffers(h, t, es);
      }
    }

    /** `visit_block_mut`: for the injection the block itself is a site,
        visited before its statements. */
    method VisitBlock(bl: Block) returns (r: Block)
      modifies this
      decreases bl
      ensures r == RewriteBlock(bl, target - old(current), kind)
      ensures Advanced(old(current), BlockSites(bl, kind))
      ensures mutated == (old(mutated) || r != bl)
    {
      if kind.InjectControlFlow? && current == target {
        mutated := true;
        current := current + 1;
        var ss := VisitStmts(bl.stmts);
        r := Block([Injected] + ss);
        assert (r.stmts)[0] == Injected;
        return;
      }
      BlockAt(bl, target - current, kind);
      if kind.InjectControlFlow? {
        current := current + 1;
      }
      var ss := VisitStmts(bl.stmts);
      r := Block(ss);
    }

    method VisitStmt(st: Stmt) returns (r: Stmt)
      modifies this
      decreases st
      ensures r == RewriteStmt(st, target - old(current), kind)
      ensures Advanced(old(current), StmtSites(st, kind))
      ensures mutated == (old(mutated) || r != st)
    {
      StmtAt(st, target - current, kind);
      match st
      case LetStmt(init) =>
        if init.Some? {
          var e := VisitExpr(init.value);
          r := LetStmt(Some(e));
        } else {
          r := st;
        }
      case ExprStmt(e) =>
        var re := VisitExpr(e);
        r := ExprStmt(re);
      case OtherStmt(_) =>
        r := st;
    }

    method VisitStmts(ss: seq<Stmt>) returns (r: seq<Stmt>)
      modifies this
      decreases ss
      ensures r == RewriteStmts(ss, target - old(current), kind)
      ensures Advanced(old(current), StmtsSites(ss, kind))
      ensures mutated == (old(mutated) || r != ss)
    {
      if ss == [] {
        return [];
      }
      StmtsAt(ss, target - current, kind);
      var h := VisitStmt(ss[0]);
      var t := VisitStmts(ss[1..]);
      r := [h] + t;
      if h != ss[0] || t != ss[1..] {
        ProjectionRewrite.ConsDiffers(h, t, ss);
      }
    }

    method VisitTraitMembers(ms: seq<TraitMember>) returns (r: seq<TraitMember>)
      modifies this
      ensures r == RewriteTraitMembers(ms, target - old(current), kind)
      ensures Advanced(old(current), TraitMembersSites(ms, kind))
      ensures mutated == (old(mutated) || r != ms)
    {
      if ms == [] {
        return [];
      }
      TraitMembersAt(ms, target - current, kind);
      var h := ms[0];
      if h.Method? && h.body.Some? {
        var b := VisitBlock(h.body.value);
        h := h.(body := Some(b));
      }
      var t := VisitTraitMembers(ms[1..]);
      r := [h] + t;
      if h != ms[0] || t != ms[1..] {
        ProjectionRewrite.ConsDiffers(h, t, ms);
      }
    }

    method VisitImplMember(m: ImplMember) returns (r: ImplMember)
      modifies this
      ensures r == RewriteImplMember(m, target - old(current), kind)
      ensures Advanced(old(current), ImplMemberSites(m, kind))
      ensures mutated == (old(mutated) || r != m)
    {
      match m
      case ConstDef(n, ty, value) =>
        var e := VisitExpr(value);
        r := ConstDef(n, ty, e);
      case MethodDef(sig, body) =>
        var b := VisitBlock(body);
        r := MethodDef(sig, b);
      case _ =>
        r := m;
    }

    method VisitImplMembers(ms: seq<ImplMember>) returns (r: seq<ImplMember>)
      modifies this
      ensures r == RewriteImplMembers(ms, target - old(current), kind)
      ensures Advanced(old(current), ImplMembersSites(ms, kind))
      ensures mutated == (old(mutated) || r != ms)
    {
      if ms == [] {
        return [];
      }
      ImplMembersAt(ms, target - current, kind);
      var h := VisitImplMember(ms[0]);
      var t := VisitImplMembers(ms[1..]);
      r := [h] + t;
      if h != ms[0] || t != ms[1..] {
        ProjectionRewrite.ConsDiffers(h, t, ms);
      }
    }

    method VisitItem(it: Item) returns (r: Item)
      modifies this
      ensures r == RewriteItem(it, target - old(current), kind)
      ensures Advanced(old(current), ItemSites(it, kind))
      ensures mutated == (old(mutated) || r != it)
    {
      match it
      case FnDef(sig, body) =>
        var b := VisitBlock(body);
        r := FnDef(sig, b);
      case TraitDef(n, g, sup, ms) =>
        var rms := VisitTraitMembers(ms);
        r := TraitDef(n, g, sup, rms);
      case ImplDef(g, tr, self, ms) =>
        var rms := VisitImplMembers(ms);
        r := ImplDef(g, tr, self, rms);
      case _ =>
        r := it;
    }

    /** `visit_file_mut`. */
    method VisitItems(items: seq<Item>) returns (r: seq<Item>)
      modifies this
      ensures r == RewriteItems(items, target - old(current), kind)
      ensures Advanced(old(current), ItemsSites(items, kind))
      ensures mutated == (old(mutated) || r != items)
    {
      if items == [] {
        return [];
      }
      ItemsAt(items, target - current, kind);
      var h := VisitItem(items[0]);
      var t := VisitItems(items[1..]);
      r := [h] + t;
      if h != items[0] || t != items[1..] {
        ProjectionRewrite.ConsDiffers(h, t, items);
      }
    }
  }

  // ---------------------------------------------------------------------
  // The collector

  /** The collector of one kind: it walks the file in visiting order and
      counts the sites of its kind. */
  class Collector {
    const kind: Kind
    var count: nat

    constructor (kind: Kind)
      ensures this.kind == kind && count == 0
    {
      this.kind := kind;
      count := 0;
    }

    method VisitExpr(e: Expr)
      modifies this
      decreases e
      ensures count == old(count) + ExprSites(e, kind)
    {
      if IsSite(e, kind) {
        count := count + 1;
      }
      match e
      case Binary(_, a, b) =>
        VisitExpr(a);
        VisitExpr(b);
      case LitExpr(_) =>
      case BlockExpr(bl) =>
        VisitBlock(bl);
      case OtherExpr(_, cs) =>
        VisitExprs(cs);
    }

    method VisitExprs(es: seq<Expr>)
      modifies this
      decreases es
      ensures count == old(count) + ExprsSites(es, kind)
    {
      if es != [] {
        VisitExpr(es[0]);
        VisitExprs(es[1..]);
      }
    }

    method VisitBlock(bl: Block)
      modifies this
      decreases bl
      ensures count == old(count) + BlockSites(bl, kind)
    {
      if kind.InjectControlFlow? {
        count := count + 1;
      }
      VisitStmts(bl.stmts);
    }

    method VisitStmts(ss: seq<Stmt>)
      modifies this
      decreases ss
      ensures count == old(count) + StmtsSites(ss, kind)
    {
      if ss != [] {
        VisitStmt(ss[0]);
        VisitStmts(ss[1..]);
      }
    }

    method VisitStmt(st: Stmt)
      modifies this
      decreases st
      ensures count == old(count) + StmtSites(st, kind)
    {
      match st
      case LetStmt(init) =>
        if init.Some? {
          VisitExpr(init.value);
        }
      case ExprStmt(e) =>
        VisitExpr(e);
      case OtherStmt(_) =>
    }

    method VisitTraitMembers(ms: seq<TraitMember>)
      modifies this
      ensures count == old(count) + TraitMembersSites(ms, kind)
    {
      if ms != [] {
        if ms[0].Method? && ms[0].body.Some? {
          VisitBlock(ms[0].body.value);
        }
        VisitTraitMembers(ms[1..]);
      }
    }

    method VisitImplMembers(ms: seq<ImplMember>)
      modifies this
      ensures count == old(count) + ImplMembersSites(ms, kind)
    {
      if ms != [] {
        match ms[0] {
          case ConstDef(_, _, value) =>
            VisitExpr(value);
          case MethodDef(_, body) =>
            VisitBlock(body);
          case _ =>
        }
        VisitImplMembers(ms[1..]);
      }
    }

    /** `visit_file`. */
    method VisitItems(items: seq<Item>)
      modifies this
      ensures count == old(count) + ItemsSites(items, kind)
    {
      if items != [] {
        match items[0] {
          case FnDef(_, body) =>
            VisitBlock(body);
          case TraitDef(_, _, _, ms) =>
            VisitTraitMembers(ms);
          case ImplDef(_, _, _, ms) =>
            VisitImplMembers(ms);
          case _ =>
        }
        VisitItems(items[1..]);
      }
    }
  }

  /** `collect`: the number of sites of the kind in the file. */
  method CollectSites(file: File, kind: Kind) returns (count: nat)
    ensures count == Collect(file, kind)
  {
    var c := new Collector(kind);
    c.VisitItems(file);
    count := c.count;
  }

  // ---------------------------------------------------------------------
  // Mutating

  /** `mutate`: the applier's walk over the file. The file changes only
      when `index` names one of the collected sites, in one item only; for
      every kind but the literal increment it then always changes. The
      applier passes exactly the sites the collector counts, unless a
      replaced binary expression hides the sites inside it. */
  method Mutate(file: File, index: nat, kind: Kind) returns (r: File, mutated: bool, passed: nat, ghost changed: nat)
    ensures r == RewriteItems(file, index, kind)
    ensures mutated <==> r != file
    ensures mutated ==> index < Collect(file, kind)
    ensures !kind.IntLiteralChange? ==> (mutated <==> index < Collect(file, kind))
    ensures r == file || (changed < |file| && r == file[changed := r[changed]])
    ensures !kind.ReplaceByConstant? ==> passed == Collect(file, kind)
    ensures passed <= Collect(file, kind)
  {
    var a := new Applier(index, kind);
    r := a.VisitItems(file);
    mutated, passed := a.mutated, a.current;
    if !kind.IntLiteralChange? {
      ItemsChangedIff(file, index, kind);
    }
    changed := AtMostOneItemChanges(file, index, kind);
  }

  // ---------------------------------------------------------------------
  // Which edits change the file

  lemma {:induction false} ExprChanged(e: Expr, l: int, k: Kind)
    requires !k.IntLiteralChange? && 0 <= l < ExprSites(e, k)
    ensures RewriteExpr(e, l, k) != e
    decreases e
  {
    if !(IsSite(e, k) && l == 0) {
      var l' := if IsSite(e, k) then l - 1 else l;
      ExprAt(e, l, k);
      match e
      case Binary(_, a, b) =>
        if l' < ExprSites(a, k) {
          ExprChanged(a, l', k);
        } else {
          ExprChanged(b, l' - ExprSites(a, k), k);
        }
      case LitExpr(_) =>
        assert false;
      case BlockExpr(bl) =>
        BlockChanged(bl, l', k);
      case OtherExpr(_, cs) =>
        ExprsChanged(cs, l', k);
    }
  }

  lemma {:induction false} ExprsChanged(es: seq<Expr>, l: int, k: Kind)
    requires !k.IntLiteralChange? && 0 <= l < ExprsSites(es, k)
    ensures RewriteExprs(es, l, k) != es
    decreases es
  {
    ExprsAt(es, l, k);
    var n := ExprSites(es[0], k);
    if l < n {
      ExprChanged(es[0], l, k);
    } else {
      ExprsChanged(es[1..], l - n, k);
    }
    ProjectionRewrite.ConsDiffers(RewriteExpr(es[0], l, k), RewriteExprs(es[1..], l - n, k), es);
  }

  lemma {:induction false} BlockChanged(bl: Block, l: int, k: Kind)
    requires !k.IntLiteralChange? && 0 <= l < BlockSites(bl, k)
    ensures RewriteBlock(bl, l, k) != bl
    decreases bl
  {
    if k.InjectControlFlow? && l == 0 {
      assert |RewriteBlock(bl, l, k).stmts| == |bl.stmts| + 1;
    } else {
      BlockAt(bl, l, k);
      StmtsChanged(bl.stmts, if k.InjectControlFlow? then l - 1 else l, k);
    }
  }

  lemma {:induction false} StmtChanged(st: Stmt, l: int, k: Kind)
    requires !k.IntLiteralChange? && 0 <= l < StmtSites(st, k)
    ensures RewriteStmt(st, l, k) != st
    decreases st
  {
    match st
    case LetStmt(init) =>
      ExprChanged(init.value, l, k);
    case ExprStmt(e) =>
      ExprChanged(e, l, k);
    case OtherStmt(_) =>
      assert false;
  }

  lemma {:induction false} StmtsChanged(ss: seq<Stmt>, l: int, k: Kind)
    requires !k.IntLiteralChange? && 0 <= l < StmtsSites(ss, k)
    ensures RewriteStmts(ss, l, k) != ss
    decreases ss
  {
    StmtsAt(ss, l, k);
    var n := StmtSites(ss[0], k);
    if l < n {
      StmtChanged(ss[0], l, k);
    } else {
      StmtsChanged(ss[1..], l - n, k);
    }
    ProjectionRewrite.ConsDiffers(RewriteStmt(ss[0], l, k), RewriteStmts(ss[1..], l - n, k), ss);
  }

  lemma {:induction false} TraitMembersChanged(ms: seq<TraitMember>, l: int, k: Kind)
    requires !k.IntLiteralChange? && 0 <= l < TraitMembersSites(ms, k)
    ensures RewriteTraitMembers(ms, l, k) != ms
  {
    TraitMembersAt(ms, l, k);
    var n := TraitMemberSites(ms[0], k);
    if l < n {
      BlockChanged(ms[0].body.value, l, k);
    } else {
      TraitMembersChanged(ms[1..], l - n, k);
    }
    ProjectionRewrite.ConsDiffers(RewriteTraitMember(ms[0], l, k), RewriteTraitMembers(ms[1..], l - n, k), ms);
  }

  lemma {:induction false} ImplMembersChanged(ms: seq<ImplMember>, l: int, k: Kind)
    requires !k.IntLiteralChange? && 0 <= l < ImplMembersSites(ms, k)
    ensures RewriteImplMembers(ms, l, k) != ms
  {
    ImplMembersAt(ms, l, k);
    var n := ImplMemberSites(ms[0], k);
    if l < n {
      match ms[0]
      case ConstDef(_, _, value) =>
        ExprChanged(value, l, k);
      case MethodDef(_, body) =>
        BlockChanged(body, l, k);
    } else {
      ImplMembersChanged(ms[1..], l - n, k);
    }
    ProjectionRewrite.ConsDiffers(RewriteImplMember(ms[0], l, k), RewriteImplMembers(ms[1..], l - n, k), ms);
  }

  lemma ItemChanged(it: Item, l: int, k: Kind)
    requires !k.IntLiteralChange? && 0 <= l < ItemSites(it, k)
    ensures RewriteItem(it, l, k) != it
  {
    match it
    case FnDef(_, body) =>
      BlockChanged(body, l, k);
    case TraitDef(_, _, _, ms) =>
      TraitMembersChanged(ms, l, k);
    case ImplDef(_, _, _, ms) =>
      ImplMembersChanged(ms, l, k);
  }

  /** For every kind but the literal increment, the file changes exactly
      when the offset names one of its sites. */
  lemma {:induction false} ItemsChangedIff(items: seq<Item>, l: int, k: Kind)
    requires !k.IntLiteralChange?
    ensures RewriteItems(items, l, k) != items <==> 0 <= l < ItemsSites(items, k)
  {
    if 0 <= l < ItemsSites(items, k) {
      ItemsAt(items, l, k);
      var n := ItemSites(items[0], k);
      if l < n {
        ItemChanged(items[0], l, k);
      } else {
        ItemsChangedIff(items[1..], l - n, k);
      }
      ProjectionRewrite.ConsDiffers(RewriteItem(items[0], l, k), RewriteItems(items[1..], l - n, k), items);
    }
  }

  /** The edit touches one item at most. */
  lemma {:induction false} AtMostOneItemChanges(items: seq<Item>, l: int, k: Kind) returns (i: nat)
    ensures var r := RewriteItems(items, l, k);
            r == items || (i < |items| && r == items[i := r[i]])
  {
    i := 0;
    var r := RewriteItems(items, l, k);
    if r != items {
      var n := ItemSites(items[0], k);
      var h, rest := RewriteItem(items[0], l, k), RewriteItems(items[1..], l - n, k);
      ItemsAt(items, l, k);
      if l < n {
        assert r == items[0 := h];
      } else {
        var j := AtMostOneItemChanges(items[1..], l - n, k);
        ProjectionRewrite.ConsUpdate(items, j, rest[j]);
        i := j + 1;
      }
    }
  }

  // ---------------------------------------------------------------------
  // The injection collector as written

  /** What the injection collector counts as written: its `visit_block`
      counts the block and does not walk into it, so a block inside
      another block is never counted, although the applier counts it. */
  function ExprOuterBlocks(e: Expr): nat
    decreases e
  {
    match e
    case Binary(_, a, b) => ExprOuterBlocks(a) + ExprOuterBlocks(b)
    case LitExpr(_) => 0
    case BlockExpr(_) => 1
    case OtherExpr(_, cs) => ExprsOuterBlocks(cs)
  }

  function ExprsOuterBlocks(es: seq<Expr>): nat
    decreases es
  {
    if es == [] then 0 else ExprOuterBlocks(es[0]) + ExprsOuterBlocks(es[1..])
  }

  function ImplMembersOuterBlocks(ms: seq<ImplMember>): nat {
    if ms == [] then 0
    else
      (match ms[0] case ConstDef(_, _, value) => ExprOuterBlocks(value) case MethodDef(_, _) => 1 case _ => 0)
      + ImplMembersOuterBlocks(ms[1..])
  }

  function TraitMembersOuterBlocks(ms: seq<TraitMember>): nat {
    if ms == [] then 0
    else (if ms[0].Method? && ms[0].body.Some? then 1 else 0) + TraitMembersOuterBlocks(ms[1..])
  }

  function OutermostBlocks(items: seq<Item>): nat {
    if items == [] then 0
    else
      (match items[0]
       case FnDef(_, _) => 1
       case TraitDef(_, _, _, ms) => TraitMembersOuterBlocks(ms)
       case ImplDef(_, _, _, ms) => ImplMembersOuterBlocks(ms)
       case _ => 0)
      + OutermostBlocks(items[1..])
  }

  /** Two functions, the first holding an empty block statement and the
      second with an empty body. */
  ghost predicate NestedShape(f: File) {
    && |f| == 2 && f[0].FnDef? && f[1].FnDef?
    && |f[0].body.stmts| == 1 && f[0].body.stmts[0].ExprStmt?
    && f[0].body.stmts[0].expr.BlockExpr? && f[0].body.stmts[0].expr.block.stmts == []
    && f[1].body.stmts == []
  }

  const NestedBlockFile: File := [
    FnDef(Signature("a", NoGenerics, [], None), Block([ExprStmt(BlockExpr(Block([])))])),
    FnDef(Signature("b", NoGenerics, [], None), Block([]))
  ]

  lemma EmptyBlockExprSites(e: Expr, k: Kind)
    requires e.BlockExpr? && e.block.stmts == []
    ensures ExprSites(e, k) == if k.InjectControlFlow? then 1 else 0
  {
    assert StmtsSites(e.block.stmts, k) == 0;
    assert !IsSite(e, k);
  }

  lemma StmtsSingle(st: Stmt, k: Kind)
    ensures StmtsSites([st], k) == StmtSites(st, k)
  {
    assert [st][1..] == [];
  }

  lemma NestedBlockSites(f: File)
    requires NestedShape(f)
    ensures ItemSites(f[0], InjectControlFlow) == 2
    ensures ItemSites(f[1], InjectControlFlow) == 1
    ensures ItemsSites(f[1..], InjectControlFlow) == 1
    ensures Collect(f, InjectControlFlow) == 3
  {
    var k := InjectControlFlow;
    var st := f[0].body.stmts[0];
    EmptyBlockExprSites(st.expr, k);
    assert f[0].body.stmts == [st];
    StmtsSingle(st, k);
    assert StmtsSites(f[1].body.stmts, k) == 0;
    assert f[1..][1..] == [];
  }

  lemma NestedBlockOuter(f: File)
    requires NestedShape(f)
    ensures OutermostBlocks(f) == 2
  {
    assert f[1..][1..] == [];
    assert f[1..][0] == f[1];
    assert OutermostBlocks(f[1..]) == 1;
  }

  /** The two targets the collector as written allows both stay in the
      first function. */
  lemma NestedBlockEarly(f: File, l: int)
    requires NestedShape(f) && 0 <= l < 2
    ensures RewriteItems(f, l, InjectControlFlow)[1] == f[1]
  {
    var k := InjectControlFlow;
    NestedBlockSites(f);
    ItemsAt(f, l, k);
    assert RewriteItems(f[1..], l - 2, k) == f[1..];
  }

  lemma NestedBlockLast(f: File)
    requires NestedShape(f)
    ensures RewriteItems(f, 2, InjectControlFlow)[1] != f[1]
  {
    var k := InjectControlFlow;
    NestedBlockSites(f);
    ItemsAt(f, 2, k);
    ItemsAt(f[1..], 0, k);
    assert RewriteItems(f, 2, k)[1] == RewriteItem(f[1], 0, k);
    assert |RewriteItem(f[1], 0, k).body.stmts| == 1;
  }

  /** With the collector as written the driver draws the target below 2,
      and the applier then reaches the outer or the nested block of the
      first function: the body of the second can never receive the
      statement. Counting every block, as `Collect` does, makes 3 targets
      and the third edits the second function. */
  lemma InjectCountMissesBlock(f: File)
    requires NestedShape(f)
    ensures OutermostBlocks(f) == 2
    ensures Collect(f, InjectControlFlow) == 3
    ensures forall l :: 0 <= l < OutermostBlocks(f) ==> RewriteItems(f, l, InjectControlFlow)[1] == f[1]
    ensures RewriteItems(f, 2, InjectControlFlow)[1] != f[1]
  {
    NestedBlockSites(f);
    NestedBlockOuter(f);
    forall l | 0 <= l < OutermostBlocks(f)
      ensures RewriteItems(f, l, InjectControlFlow)[1] == f[1]
    {
      NestedBlockEarly(f, l);
    }
    NestedBlockLast(f);
  }

  /** Such a file exists. */
  lemma NestedBlockFileShape()
    ensures NestedShape(NestedBlockFile)
  {
  }
}
