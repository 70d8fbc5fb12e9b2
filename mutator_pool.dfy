/** The strategy picker of the fuzzing worker. Weights are configuration
    values kept as reals; the weighted draws themselves are random and are
    modelled as nondeterministic picks among the entries that can come out
    of them. */
module MutatorPool {
  import opened Wrappers

  const AST_STRUCTURAL := "ast_structural"
  const AST_NON_STRUCTURAL := "ast_non_structural"
  const LLM_INJECTION := "llm_injection"

  /** The four structural mutation operators, in their fixed order. */
  const STRUCTURAL_OPS: seq<string> := ["add_assoc_type", "add_trait", "add_impl", "constraint_injection"]

  /** The five non-structural mutation operators. */
  const NON_STRUCTURAL_OPS: seq<string> :=
    ["bin_op_flip", "int_literal_change", "bool_flip", "replace_by_constant", "inject_control_flow"]

  /** The configured strategies with their weights (in the configuration's
      key order), and the sub-weights of the structural operators. */
  datatype Pool = Pool(weights: seq<(string, real)>, structuralSubweights: map<string, real>)

  /** Top-level weights used when the configuration gives none. */
  const DEFAULT_WEIGHTS: seq<(string, real)> :=
    [(AST_STRUCTURAL, 0.4), (AST_NON_STRUCTURAL, 0.4), (LLM_INJECTION, 0.2)]

  /** `MutatorPool.__init__`: configured values win; otherwise the default
      top-level weights and weight 1.0 for every structural operator. */
  function NewPool(strategyWeights: Option<seq<(string, real)>>, subweights: Option<map<string, real>>): (p: Pool)
    ensures strategyWeights.None? ==>
      |p.weights| == 3
      && p.weights[0] == ("ast_structural", 0.4)
      && p.weights[1] == ("ast_non_structural", 0.4)
      && p.weights[2] == ("llm_injection", 0.2)
    ensures strategyWeights.Some? ==> p.weights == strategyWeights.value
    ensures subweights.None? ==>
      forall op :: op in STRUCTURAL_OPS ==> op in p.structuralSubweights && p.structuralSubweights[op] == 1.0
    ensures subweights.Some? ==> p.structuralSubweights == subweights.value
  {
    Pool(strategyWeights.GetOr(DEFAULT_WEIGHTS),
         subweights.GetOr(map["add_assoc_type" := 1.0, "add_trait" := 1.0, "add_impl" := 1.0,
                              "constraint_injection" := 1.0]))
  }

  /** Sub-weight of a structural operator, 0.0 when it is not configured. */
  function SubWeight(p: Pool, op: string): real {
    if op in p.structuralSubweights then p.structuralSubweights[op] else 0.0
  }

  /** Structural operators with a positive sub-weight. */
  function PositiveOps(p: Pool, ops: seq<string>): (r: seq<string>)
    ensures forall op :: op in r <==> op in ops && SubWeight(p, op) > 0.0
  {
    if ops == [] then []
    else (if SubWeight(p, ops[0]) > 0.0 then [ops[0]] else []) + PositiveOps(p, ops[1..])
  }

  /** The structural operators the weighted draw can return: those with a
      positive sub-weight, or all four when none is positive. */
  function DrawableStructural(p: Pool): (r: seq<string>)
    ensures r != []
    ensures forall op :: op in r ==> op in STRUCTURAL_OPS
    ensures (exists op :: op in STRUCTURAL_OPS && SubWeight(p, op) > 0.0) ==>
      forall op :: op in r <==> op in STRUCTURAL_OPS && SubWeight(p, op) > 0.0
    ensures (forall op :: op in STRUCTURAL_OPS ==> SubWeight(p, op) <= 0.0) ==> r == STRUCTURAL_OPS
  {
    var pos := PositiveOps(p, STRUCTURAL_OPS);
    if pos == [] then STRUCTURAL_OPS else assert pos[0] in pos; pos
  }

  /** `select_strategy`: `top` is the strategy the top-level draw returned,
      `structuralDraw` and `plainDraw` the positions the second-level draws
      returned (reduced modulo the number of entries they draw from). */
  function SelectStrategy(p: Pool, top: string, structuralDraw: nat, plainDraw: nat): (r: string)
    ensures top == AST_STRUCTURAL ==> r in DrawableStructural(p) && r in STRUCTURAL_OPS
    ensures top == AST_NON_STRUCTURAL ==> r in NON_STRUCTURAL_OPS
    ensures top != AST_STRUCTURAL && top != AST_NON_STRUCTURAL ==> r == top
  {
    if top == AST_STRUCTURAL then
      Pick(DrawableStructural(p), structuralDraw)
    else if top == AST_NON_STRUCTURAL then
      Pick(NON_STRUCTURAL_OPS, plainDraw)
    else top
  }

  /** The entry a uniform draw over `ops` lands on. */
  function Pick(ops: seq<string>, draw: nat): (r: string)
    requires ops != []
    ensures r in ops
  {
    ops[draw % |ops|]
  }

  /** Every entry of `ops` is the outcome of some draw. */
  lemma PickReachable(ops: seq<string>, op: string)
    requires op in ops
    ensures exists d: nat :: Pick(ops, d) == op
  {
    var i :| 0 <= i < |ops| && ops[i] == op;
    assert Pick(ops, i) == op;
  }

  /** Every drawable structural operator is returned for some draw. */
  lemma EveryStructuralReachable(p: Pool, op: string)
    requires op in DrawableStructural(p)
    ensures exists d: nat :: SelectStrategy(p, AST_STRUCTURAL, d, 0) == op
  {
    PickReachable(DrawableStructural(p), op);
    var d: nat :| Pick(DrawableStructural(p), d) == op;
    assert SelectStrategy(p, AST_STRUCTURAL, d, 0) == op;
  }

  /** Every non-structural operator is returned for some draw. */
  lemma EveryPlainReachable(p: Pool, op: string)
    requires op in NON_STRUCTURAL_OPS
    ensures exists d: nat :: SelectStrategy(p, AST_NON_STRUCTURAL, 0, d) == op
  {
    PickReachable(NON_STRUCTURAL_OPS, op);
    var d: nat :| Pick(NON_STRUCTURAL_OPS, d) == op;
    assert SelectStrategy(p, AST_NON_STRUCTURAL, 0, d) == op;
  }

  lemma {:induction false} PositiveOpsAll(p: Pool, ops: seq<string>)
    requires forall op :: op in ops ==> SubWeight(p, op) > 0.0
    ensures PositiveOps(p, ops) == ops
  {
    if ops != [] {
      assert ops[0] in ops;
      assert forall op :: op in ops[1..] ==> op in ops;
      PositiveOpsAll(p, ops[1..]);
      assert [ops[0]] + ops[1..] == ops;
    }
  }

  /** With no configured sub-weights every structural operator can be
      drawn. */
  lemma DefaultSubweightsDrawAll(strategyWeights: Option<seq<(string, real)>>)
    ensures DrawableStructural(NewPool(strategyWeights, None)) == STRUCTURAL_OPS
  {
    PositiveOpsAll(NewPool(strategyWeights, None), STRUCTURAL_OPS);
  }

  /** `update_weights` is a placeholder: the pool is unchanged whatever the
      feedback. */
  function UpdateWeights(p: Pool, feedback: map<string, real>): (r: Pool)
    ensures r == p
  {
    p
  }
}
