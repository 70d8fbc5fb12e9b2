/** One mutation round of the fuzzing worker: the order in which the
    mutation strategies are planned, the bookkeeping that keeps the tool
    from sampling a mutation point twice, the suppression of duplicate
    mutants, and how each attempt reads the tool's signals. Random draws,
    the tool's runs and the language-model injector are inputs. */
module RoundController {
  import opened Wrappers
  import opened Text
  import opened ChoiceLine

  const CONSTRAINT_INJECTION := "constraint_injection"
  const PROJECTION_REWRITE := "projection_rewrite"
  const LIFETIME_OBFUSCATION := "lifetime_obfuscation"
  const LIFETIME_OUTLIVE := "lifetime_outlive"
  const LLM_INJECTION := "llm_injection"

  /** Strategies that are dropped for the round, rather than retried, when
      they run out of points or report no mutation. */
  const SKIP_WITHOUT_RETRY: set<string> := {"constraint_injection", "add_trait", "add_impl"}

  const PARSE_FAILED := "Parse failed:"
  const NO_MUTATION := "No mutation performed"

  function Pos(n: int): nat { if n > 0 then n else 0 }

  /** `n` copies of `s` (none when `n` is not positive). */
  function Copies(s: string, n: int): (r: seq<string>)
    ensures |r| == Pos(n)
    ensures forall i :: 0 <= i < |r| ==> r[i] == s
    decreases Pos(n)
  {
    if n <= 0 then [] else Copies(s, n - 1) + [s]
  }

  /** The structural draws that produced an operator, in order. */
  function Drawn(picks: seq<Option<string>>): (r: seq<string>)
    ensures |r| <= |picks|
    decreases |picks|
  {
    if picks == [] then []
    else
      var last := picks[|picks| - 1];
      Drawn(picks[..|picks| - 1]) + (if last.Some? then [last.value] else [])
  }

  /** An operator is planned from the draws exactly when some draw gave it. */
  lemma {:induction false} DrawnMembers(picks: seq<Option<string>>)
    ensures forall x :: x in Drawn(picks) <==> Some(x) in picks
    decreases |picks|
  {
    if picks != [] {
      var init := picks[..|picks| - 1];
      DrawnMembers(init);
      assert picks == init + [picks[|picks| - 1]];
    }
  }

  /** The per-round counts read from the configuration. */
  datatype RoundConfig = RoundConfig(structuralOnly: bool, injection: int, projection: int,
                                     lifetime: int, outlive: int, structural: int)

  /** The four leaf strategies, each repeated its configured number of
      times, in their fixed order; none with `--structural-only`. */
  function LeafPlan(cfg: RoundConfig): seq<string> {
    if cfg.structuralOnly then []
    else (Copies(CONSTRAINT_INJECTION, cfg.injection) + Copies(PROJECTION_REWRITE, cfg.projection)
          + Copies(LIFETIME_OBFUSCATION, cfg.lifetime) + Copies(LIFETIME_OUTLIVE, cfg.outlive))
  }

  /** Append `n` copies of `s`. */
  method AppendCopies(plan: seq<string>, s: string, n: int) returns (r: seq<string>)
    ensures r == plan + Copies(s, n)
  {
    r := plan;
    var k := 0;
    while k < n
      invariant 0 <= k <= Pos(n)
      invariant r == plan + Copies(s, k)
    {
      r := r + [s];
      k := k + 1;
    }
  }

  /** The round's plan: the leaf strategies, then one structural operator
      per structural draw that produced one. `picks` holds the structural
      draws, one per configured structural mutation. */
  method PlanStrategies(cfg: RoundConfig, picks: seq<Option<string>>) returns (plan: seq<string>)
    requires |picks| == Pos(cfg.structural)
    ensures plan == LeafPlan(cfg) + Drawn(picks)
  {
    plan := [];
    if !cfg.structuralOnly {
      plan := AppendCopies(plan, CONSTRAINT_INJECTION, cfg.injection);
      plan := AppendCopies(plan, PROJECTION_REWRITE, cfg.projection);
      plan := AppendCopies(plan, LIFETIME_OBFUSCATION, cfg.lifetime);
      plan := AppendCopies(plan, LIFETIME_OUTLIVE, cfg.outlive);
    }
    var leaves := plan;
    var k := 0;
    while k < |picks|
      invariant 0 <= k <= |picks|
      invariant plan == leaves + Drawn(picks[..k])
    {
      assert picks[..k + 1][..k] == picks[..k];
      if picks[k].Some? {
        plan := plan + [picks[k].value];
      }
      k := k + 1;
    }
    assert picks[..k] == picks;
  }

  /** Where each strategy sits in the plan: injections first, then
      projections, lifetime obfuscations, outlives and the drawn structural
      operators. */
  lemma PlanLayout(cfg: RoundConfig, picks: seq<Option<string>>, i: nat)
    requires !cfg.structuralOnly
    requires i < |LeafPlan(cfg) + Drawn(picks)|
    ensures var plan := LeafPlan(cfg) + Drawn(picks);
      var a := Pos(cfg.injection);
      var b := a + Pos(cfg.projection);
      var c := b + Pos(cfg.lifetime);
      var d := c + Pos(cfg.outlive);
      (i < a ==> plan[i] == CONSTRAINT_INJECTION)
      && (a <= i < b ==> plan[i] == PROJECTION_REWRITE)
      && (b <= i < c ==> plan[i] == LIFETIME_OBFUSCATION)
      && (c <= i < d ==> plan[i] == LIFETIME_OUTLIVE)
      && (d <= i ==> plan[i] in Drawn(picks))
  {
    var p1 := Copies(CONSTRAINT_INJECTION, cfg.injection);
    var p2 := Copies(PROJECTION_REWRITE, cfg.projection);
    var p3 := Copies(LIFETIME_OBFUSCATION, cfg.lifetime);
    var p4 := Copies(LIFETIME_OUTLIVE, cfg.outlive);
    var plan := LeafPlan(cfg) + Drawn(picks);
    assert plan == p1 + (p2 + (p3 + (p4 + Drawn(picks))));
    var a := |p1|;
    var b := a + |p2|;
    var c := b + |p3|;
    var d := c + |p4|;
    if i < a {
      assert plan[i] == p1[i];
    } else if i < b {
      assert plan[i] == p2[i - a];
    } else if i < c {
      assert plan[i] == p3[i - b];
    } else if i < d {
      assert plan[i] == p4[i - c];
    } else {
      assert plan[i] == Drawn(picks)[i - d];
    }
  }

  /** With `--structural-only` only the drawn structural operators are
      planned. */
  lemma StructuralOnlyPlan(cfg: RoundConfig, picks: seq<Option<string>>)
    requires cfg.structuralOnly
    ensures forall x :: x in LeafPlan(cfg) + Drawn(picks) <==> Some(x) in picks
  {
    DrawnMembers(picks);
    assert LeafPlan(cfg) + Drawn(picks) == Drawn(picks);
  }

  /** What the index picker decided before the tool is run. */
  datatype IndexPick =
    | NoCount               // the tool has not yet reported a count: no forced index
    | NoPoints              // the reported count is not positive
    | AllUsed               // every point has been tried already
    | Forced(index: nat)    // an untried point to force

  /** What an attempt reads from the tool's stderr and output file. */
  datatype Signal = ParseFailed | NoOp | Produced(content: string) | NoOutput

  /** The checks on the tool's run, in the order they are made: a parse
      failure first, then a no-op, then the produced file. */
  function ReadSignal(stderr: string, output: Option<string>): (sig: Signal)
    ensures sig == ParseFailed <==> Contains(stderr, PARSE_FAILED)
    ensures sig == NoOp <==> !Contains(stderr, PARSE_FAILED) && Contains(stderr, NO_MUTATION)
    ensures sig.Produced? <==> !Contains(stderr, PARSE_FAILED) && !Contains(stderr, NO_MUTATION) && output.Some?
    ensures sig.Produced? ==> sig.content == output.value
  {
    if Contains(stderr, PARSE_FAILED) then ParseFailed
    else if Contains(stderr, NO_MUTATION) then NoOp
    else if output.Some? then Produced(output.value)
    else NoOutput
  }

  /** The tool's report on unparsable input (its two lines, whatever the
      parser's message) reads as a parse failure, not as a no-op. */
  lemma ParseFailureWins(message: string, output: Option<string>)
    ensures ReadSignal(PARSE_FAILED + message + "\n" + NOOP_LINE + "\n", output) == ParseFailed
  {
    var s := PARSE_FAILED + message + "\n" + NOOP_LINE + "\n";
    assert s == PARSE_FAILED + (message + "\n" + NOOP_LINE + "\n");
    assert s[..|PARSE_FAILED|] == PARSE_FAILED;
  }

  /** A stderr ending in the no-mutation status line reads as a no-op
      unless a parse failure was reported. */
  lemma NoMutationLineIsNoOp(before: string, output: Option<string>)
    requires !Contains(before + NOOP_LINE + "\n", PARSE_FAILED)
    ensures ReadSignal(before + NOOP_LINE + "\n", output) == NoOp
  {
    var s := before + NOOP_LINE + "\n";
    assert s == before + (NOOP_LINE + "\n");
    assert (NOOP_LINE + "\n")[..|NO_MUTATION|] == NO_MUTATION;
    ContainsAppend(before, NOOP_LINE + "\n", NO_MUTATION);
  }

  /** One run of the mutation tool: it raised, or it ran, printed `stderr`
      (from which the pattern search recovered `choice`) and left `output`. */
  datatype ToolRun = Raised | Ran(stderr: string, choice: Option<Choice>, output: Option<string>)

  /** The inputs of one attempt: the random draws for the index picker, the
      tool's run, and what the language-model injector returns. */
  datatype Attempt = Attempt(draws: seq<int>, tool: ToolRun, injected: Option<string>)

  datatype SkipReason = Plain | Exhausted | NoMutation

  /** What one attempt decided: the variant is over, or the next attempt
      follows, counting this one as inapplicable or not. */
  datatype Step = Finish(result: VariantResult) | Inapplicable | Retry

  /** How a variant ends. */
  datatype VariantResult =
    | Mutant(content: string)
    | Skipped(reason: SkipReason)
    | SeedUnparseable
    | GaveUp

  /** The indices below `n`. */
  function Below(n: nat): (r: set<int>)
    ensures forall k :: k in r <==> 0 <= k < n
    ensures |r| == n
  {
    if n == 0 then {} else Below(n - 1) + {n - 1}
  }

  /** There is an index below `n` outside `used` when `used` is smaller than
      `n`. */
  lemma UnusedIndexExists(used: set<int>, n: nat)
    requires |used| < n
    ensures exists k :: 0 <= k < n && k !in used
  {
    var missing := Below(n) - used;
    assert |missing| > 0;
    var k :| k in missing;
  }

  /** The state the worker keeps while mutating one seed: the candidate
      counts the tool reported, the indices tried, the exhausted
      strategies, and the mutants already produced per strategy (a mutant
      stands for its SHA-256 digest). */
  /** The bookkeeping of a round that has reached `|reached|` plan
      positions: `reached[k]` is the round's exhausted set (starting from
      `start`, only growing, and contained in the current set `ex`) when
      position `k` is reached; `taken` are the positions that ran, in
      increasing order, and they are exactly the reached positions whose
      strategy was not exhausted then; a variant that ended in an
      exhaustion skip left its strategy in `ex`. */
  ghost predicate RoundLog(plan: seq<string>, results: seq<(string, VariantResult)>, taken: seq<nat>,
                           reached: seq<set<string>>, start: set<string>, ex: set<string>)
  {
    && |results| == |taken| && |reached| <= |plan|
    && (|reached| > 0 ==> reached[0] == start)
    && (forall k, k' :: 0 <= k <= k' < |reached| ==> reached[k] <= reached[k'])
    && (forall k :: 0 <= k < |reached| ==> reached[k] <= ex)
    && (forall j :: 0 <= j < |taken| ==>
          taken[j] < |reached| && results[j].0 == plan[taken[j]] && plan[taken[j]] !in reached[taken[j]])
    && (forall j, j' :: 0 <= j < j' < |taken| ==> taken[j] < taken[j'])
    && (forall k :: 0 <= k < |reached| && plan[k] !in reached[k] ==> k in taken)
    && (forall j :: 0 <= j < |results| && ExhaustionSkip(results[j].1) ==> results[j].0 in ex)
    && (forall j, j' :: 0 <= j < j' < |results| && ExhaustionSkip(results[j].1) ==> results[j'].0 != results[j].0)
  }

  /** A skip that leaves the strategy exhausted for the round. */
  predicate ExhaustionSkip(r: VariantResult)
  {
    r.Skipped? && r.reason != Plain
  }

  /** Passing over an exhausted position keeps the log. */
  lemma LogPass(plan: seq<string>, results: seq<(string, VariantResult)>, taken: seq<nat>,
                reached: seq<set<string>>, start: set<string>, ex: set<string>)
    requires RoundLog(plan, results, taken, reached, start, ex)
    requires |reached| < |plan| && plan[|reached|] in ex
    requires |reached| == 0 ==> ex == start
    ensures RoundLog(plan, results, taken, reached + [ex], start, ex)
  {
    var reached' := reached + [ex];
    forall k | 0 <= k < |reached'| && plan[k] !in reached'[k] ensures k in taken {
      if k < |reached| { assert reached'[k] == reached[k]; }
    }
  }

  /** Running the variant at the next position, which was not exhausted,
      keeps the log; the exhausted set may grow during the run. */
  lemma LogRun(plan: seq<string>, results: seq<(string, VariantResult)>, taken: seq<nat>,
               reached: seq<set<string>>, start: set<string>, ex: set<string>, ex': set<string>, r: VariantResult)
    requires RoundLog(plan, results, taken, reached, start, ex)
    requires |reached| < |plan| && plan[|reached|] !in ex
    requires |reached| == 0 ==> ex == start
    requires ex <= ex' && (ExhaustionSkip(r) ==> plan[|reached|] in ex')
    ensures RoundLog(plan, results + [(plan[|reached|], r)], taken + [|reached|], reached + [ex], start, ex')
  {
    var n := |reached|;
    var results', taken', reached' := results + [(plan[n], r)], taken + [n], reached + [ex];
    forall j, j' | 0 <= j < j' < |results'| && ExhaustionSkip(results'[j].1)
      ensures results'[j'].0 != results'[j].0
    {
      if j' == |results| {
        assert results[j].0 in ex;
      }
    }
    forall k | 0 <= k < |reached'| && plan[k] !in reached'[k] ensures k in taken' {
      if k < n { assert reached'[k] == reached[k]; assert k in taken; } else { assert taken'[|taken|] == k; }
    }
  }

  /** What the compile-and-classify stage made of a mutant (the stage
      itself is not part of this module): `killFate` when the variant was
      persisted as a CRASH or HANG, which stops mutating the seed;
      `outOfSpace` when the retention check run before persisting the case
      reported that free space stays below the minimum
      (`Retention.EnforceResultsLimits` gave `Some(false)`), on which the
      worker returns at once; and `completed` when the stage got through to
      the seed chaining without an exception. */
  datatype Aftermath = Aftermath(killFate: bool, outOfSpace: bool, completed: bool)

  /** A variant result that ends the round: a seed that does not parse, a
      mutant persisted as a CRASH or HANG, or a mutant on which the worker
      ran out of disk space. */
  predicate StopsRound(r: VariantResult, after: Aftermath)
  {
    r.SeedUnparseable? || (r.Mutant? && (after.killFate || after.outOfSpace))
  }

  /** A structural mutant whose stage completed becomes the seed of the
      next round. A worker that ran out of disk space returned before the
      chaining step, so its mutant never chains. */
  predicate Chains(strategy: string, r: VariantResult, after: Aftermath, structuralOps: set<string>)
  {
    r.Mutant? && after.completed && !after.outOfSpace && strategy in structuralOps
  }

  /** The seed after the variants `results`: the latest chaining mutant, or
      `seed` when none chained. `aftermathOf(j)` is the aftermath of the
      `j`-th variant. */
  ghost function ChainedSeed(seed: string, results: seq<(string, VariantResult)>, aftermathOf: nat -> Aftermath,
                             structuralOps: set<string>): string
  {
    if results == [] then seed
    else
      var j := |results| - 1;
      if Chains(results[j].0, results[j].1, aftermathOf(j), structuralOps) then results[j].1.content
      else ChainedSeed(seed, results[..j], aftermathOf, structuralOps)
  }

  /** Whether the last of `results` chained. */
  ghost predicate LastChains(results: seq<(string, VariantResult)>, aftermathOf: nat -> Aftermath,
                             structuralOps: set<string>)
  {
    results != [] && Chains(results[|results| - 1].0, results[|results| - 1].1, aftermathOf(|results| - 1), structuralOps)
  }

  /** No variant of `results` stopped the round. */
  ghost predicate Unstopped(results: seq<(string, VariantResult)>, aftermathOf: nat -> Aftermath)
  {
    forall j :: 0 <= j < |results| ==> !StopsRound(results[j].1, aftermathOf(j))
  }

  /** Appending one variant to an unstopped log: every variant before it
      still did not stop, and the log stays unstopped unless it does. */
  lemma UnstoppedAppend(results: seq<(string, VariantResult)>, x: (string, VariantResult), aftermathOf: nat -> Aftermath)
    requires Unstopped(results, aftermathOf)
    ensures forall j :: 0 <= j < |results + [x]| - 1 ==> !StopsRound((results + [x])[j].1, aftermathOf(j))
    ensures !StopsRound(x.1, aftermathOf(|results|)) ==> Unstopped(results + [x], aftermathOf)
  {
    forall j | 0 <= j < |results + [x]| - 1
      ensures !StopsRound((results + [x])[j].1, aftermathOf(j))
    {
      assert (results + [x])[j] == results[j];
    }
  }

  /** Appending one variant moves the chained seed to its mutant exactly
      when it chains. */
  lemma ChainedSeedAppend(seed: string, results: seq<(string, VariantResult)>, x: (string, VariantResult),
                          aftermathOf: nat -> Aftermath, structuralOps: set<string>)
    ensures LastChains(results + [x], aftermathOf, structuralOps) == Chains(x.0, x.1, aftermathOf(|results|), structuralOps)
    ensures ChainedSeed(seed, results + [x], aftermathOf, structuralOps) ==
      if Chains(x.0, x.1, aftermathOf(|results|), structuralOps) then x.1.content
      else ChainedSeed(seed, results, aftermathOf, structuralOps)
  {
    assert (results + [x])[..|results|] == results;
  }

  class RoundState {
    var known: map<string, int>
    var used: map<string, set<int>>
    var exhausted: set<string>
    var exhaustedInRound: set<string>
    var seen: map<string, set<string>>

    constructor ()
      ensures known == map[] && used == map[] && seen == map[]
      ensures exhausted == {} && exhaustedInRound == {}
    {
      known := map[];
      used := map[];
      exhausted := {};
      exhaustedInRound := {};
      seen := map[];
    }

    /** The indices tried for `s` (an absent entry is an empty set). */
    function UsedBy(s: string): set<int>
      reads this
    {
      if s in used then used[s] else {}
    }

    /** The mutants produced so far by `s`. */
    function SeenBy(s: string): set<string>
      reads this
    {
      if s in seen then seen[s] else {}
    }

    /** A new round forgets counts, tried indices and exhaustion; the
        produced mutants are kept for the whole seed. */
    method StartRound()
      modifies this
      ensures known == map[] && used == map[] && exhausted == {} && exhaustedInRound == {}
      ensures seen == old(seen)
    {
      known, used, exhausted, exhaustedInRound := map[], map[], {}, {};
    }

    /** `_is_duplicate_mutation`: an empty strategy or a missing mutant is
        never a duplicate; otherwise the mutant is a duplicate exactly when
        it was produced before, and it is remembered from now on. */
    method IsDuplicate(strategy: string, content: Option<string>) returns (dup: bool)
      modifies this
      ensures dup <==> strategy != "" && content.Some? && content.value in old(SeenBy(strategy))
      ensures strategy == "" || content.None? ==> seen == old(seen)
      ensures strategy != "" && content.Some? ==>
        seen == old(seen)[strategy := old(SeenBy(strategy)) + {content.value}]
      ensures strategy != "" && content.Some? ==> content.value in SeenBy(strategy)
      ensures known == old(known) && used == old(used)
      ensures exhausted == old(exhausted) && exhaustedInRound == old(exhaustedInRound)
    {
      dup := false;
      if strategy == "" || content.None? {
        return;
      }
      var s := SeenBy(strategy);
      dup := content.value in s;
      seen := seen[strategy := s + {content.value}];
    }

    /** The forced index: none while the count is unknown; the strategy is
        marked exhausted when the count is not positive or every index below
        it has been tried; otherwise an untried index below the count,
        taken from the first of `tries` draws (reduced modulo the count)
        that is untried, or else, when every one of those draws hit a tried
        index, any untried one. */
    method PickIndex(strategy: string, draws: seq<int>, tries: int) returns (pick: IndexPick)
      modifies this
      ensures strategy !in old(known) ==> pick == NoCount
      ensures strategy in old(known) && old(known)[strategy] <= 0 ==> pick == NoPoints
      ensures strategy in old(known) && old(known)[strategy] > 0 && |old(UsedBy(strategy))| >= old(known)[strategy] ==>
        pick == AllUsed
      ensures pick.Forced? ==> strategy in known && pick.index < known[strategy] && pick.index !in UsedBy(strategy)
      ensures pick == NoPoints || pick == AllUsed ==>
        exhausted == old(exhausted) + {strategy} && exhaustedInRound == old(exhaustedInRound) + {strategy}
      ensures pick == NoCount || pick.Forced? ==>
        exhausted == old(exhausted) && exhaustedInRound == old(exhaustedInRound)
      ensures pick.Forced? ==>
        var cand := known[strategy];
        || (exists i :: 0 <= i < tries && i < |draws| && pick.index == draws[i] % cand
              && forall i' :: 0 <= i' < i ==> draws[i'] % cand in UsedBy(strategy))
        || (forall i :: 0 <= i < tries && i < |draws| ==> draws[i] % cand in UsedBy(strategy))
      ensures known == old(known) && used == old(used) && seen == old(seen)
    {
      if strategy !in known {
        return NoCount;
      }
      var cand := known[strategy];
      if cand <= 0 {
        exhausted, exhaustedInRound := exhausted + {strategy}, exhaustedInRound + {strategy};
        return NoPoints;
      }
      var tried := UsedBy(strategy);
      if |tried| >= cand {
        exhausted, exhaustedInRound := exhausted + {strategy}, exhaustedInRound + {strategy};
        return AllUsed;
      }
      var k := 0;
      while k < tries && k < |draws|
        invariant 0 <= k <= |draws| && (k == 0 || k <= tries)
        invariant forall i :: 0 <= i < k ==> draws[i] % cand in tried
      {
        var idx := draws[k] % cand;
        if idx !in tried {
          return Forced(idx);
        }
        k := k + 1;
      }
      UnusedIndexExists(tried, cand);
      var idx :| 0 <= idx < cand && idx !in tried;
      pick := Forced(idx);
    }

    /** What the worker records from the `MUTATION_CHOICE` numbers: for the
        strategies without a choice space, the candidate count, the tried
        index and, once every index is tried, exhaustion; for the two
        choice-space strategies, the choice count and the tried choice
        index. */
    method RecordChoice(strategy: string, choice: Option<Choice>)
      modifies this
      ensures choice.None? ==> known == old(known) && used == old(used) && exhausted == old(exhausted)
      ensures choice.Some? && strategy != CONSTRAINT_INJECTION && strategy != PROJECTION_REWRITE ==>
        known == old(known)[strategy := choice.value.count]
        && used == old(used)[strategy := old(UsedBy(strategy)) + {choice.value.index}]
        && exhausted == (if choice.value.count > 0 && |UsedBy(strategy)| >= choice.value.count
                         then old(exhausted) + {strategy} else old(exhausted))
      ensures choice.Some? && (strategy == CONSTRAINT_INJECTION || strategy == PROJECTION_REWRITE) ==>
        exhausted == old(exhausted)
        && (choice.value.choice.Some? ==>
              known == old(known)[strategy := choice.value.choice.value.0]
              && used == old(used)[strategy := old(UsedBy(strategy)) + {choice.value.choice.value.1}])
        && (choice.value.choice.None? ==> known == old(known) && used == old(used))
      ensures exhaustedInRound == old(exhaustedInRound) && seen == old(seen)
    {
      if choice.None? {
        return;
      }
      if strategy != CONSTRAINT_INJECTION && strategy != PROJECTION_REWRITE {
        RecordPoint(strategy, choice.value.count, choice.value.index);
      } else if choice.value.choice.Some? {
        RecordTried(strategy, choice.value.choice.value.0, choice.value.choice.value.1);
      }
    }

    /** A count and a tried index for `strategy`. */
    method RecordTried(strategy: string, count: nat, index: nat)
      modifies this
      ensures known == old(known)[strategy := count]
      ensures used == old(used)[strategy := old(UsedBy(strategy)) + {index}]
      ensures exhausted == old(exhausted) && exhaustedInRound == old(exhaustedInRound) && seen == old(seen)
    {
      var tried := UsedBy(strategy) + {index};
      known, used := known[strategy := count], used[strategy := tried];
    }

    /** A count and a tried index, and exhaustion once every index below a
        positive count is tried. */
    method RecordPoint(strategy: string, count: nat, index: nat)
      modifies this
      ensures known == old(known)[strategy := count]
      ensures used == old(used)[strategy := old(UsedBy(strategy)) + {index}]
      ensures exhausted == (if count > 0 && |UsedBy(strategy)| >= count then old(exhausted) + {strategy} else old(exhausted))
      ensures exhaustedInRound == old(exhaustedInRound) && seen == old(seen)
    {
      RecordTried(strategy, count, index);
      if count > 0 && |UsedBy(strategy)| >= count {
        exhausted := exhausted + {strategy};
      }
    }

    /** An attempt of `llm_injection`: the injector's mutant, unless it
        produced none or a duplicate. */
    method InjectorStep(strategy: string, injected: Option<string>) returns (step: Step)
      modifies this
      ensures injected.None? ==> step == Finish(GaveUp)
      ensures injected.Some? ==> (step == Inapplicable <==> strategy != "" && injected.value in old(SeenBy(strategy)))
      ensures step != Inapplicable && injected.Some? ==> step == Finish(Mutant(injected.value))
      ensures strategy != "" && injected.Some? ==> injected.value in SeenBy(strategy)
      ensures forall s :: s != strategy ==> SeenBy(s) == old(SeenBy(s))
      ensures old(SeenBy(strategy)) <= SeenBy(strategy)
      ensures exhausted == old(exhausted) && exhaustedInRound == old(exhaustedInRound)
    {
      if injected.None? {
        return Finish(GaveUp);
      }
      var dup := IsDuplicate(strategy, injected);
      step := if dup then Inapplicable else Finish(Mutant(injected.value));
    }

    /** One attempt of a variant: pick the forced index, run the tool (or
        the injector for `llm_injection`) and read its signals. */
    method AttemptStep(strategy: string, at: Attempt, tries: int) returns (step: Step)
      modifies this
      ensures step.Finish? && step.result.Mutant? && strategy != "" ==>
        step.result.content !in old(SeenBy(strategy)) && step.result.content in SeenBy(strategy)
      ensures step == Finish(SeedUnparseable) ==>
        strategy != LLM_INJECTION && at.tool.Ran? && Contains(at.tool.stderr, PARSE_FAILED)
      ensures step == Finish(Skipped(Exhausted)) ==>
        strategy in SKIP_WITHOUT_RETRY && strategy in exhausted && strategy in exhaustedInRound
      ensures step == Finish(Skipped(NoMutation)) ==> strategy in SKIP_WITHOUT_RETRY && strategy in exhaustedInRound
      ensures old(exhausted) <= exhausted && old(exhaustedInRound) <= exhaustedInRound
      ensures forall s :: s != strategy ==> SeenBy(s) == old(SeenBy(s))
      ensures old(SeenBy(strategy)) <= SeenBy(strategy)
    {
      if strategy == LLM_INJECTION {
        step := InjectorStep(strategy, at.injected);
        return;
      }
      var pick := PickIndex(strategy, at.draws, tries);
      if pick == NoPoints {
        return Finish(Skipped(Plain));
      } else if pick == AllUsed {
        return if strategy in SKIP_WITHOUT_RETRY then Finish(Skipped(Exhausted)) else Inapplicable;
      } else if at.tool.Raised? {
        return Retry;
      }
      step := ToolStep(strategy, at.tool.stderr, at.tool.choice, at.tool.output);
    }

    /** The tool ran: record its choice numbers, then read its signals. */
    method ToolStep(strategy: string, stderr: string, choice: Option<Choice>, output: Option<string>)
      returns (step: Step)
      modifies this
      ensures step.Finish? && step.result.Mutant? && strategy != "" ==>
        step.result.content !in old(SeenBy(strategy)) && step.result.content in SeenBy(strategy)
      ensures step == Finish(SeedUnparseable) <==> Contains(stderr, PARSE_FAILED)
      ensures step.Finish? ==> step.result.Mutant? || step.result == SeedUnparseable || step.result == Skipped(NoMutation)
      ensures step == Finish(Skipped(NoMutation)) ==> strategy in SKIP_WITHOUT_RETRY && strategy in exhaustedInRound
      ensures old(exhausted) <= exhausted && old(exhaustedInRound) <= exhaustedInRound
      ensures forall s :: s != strategy ==> SeenBy(s) == old(SeenBy(s))
      ensures old(SeenBy(strategy)) <= SeenBy(strategy)
    {
      RecordChoice(strategy, choice);
      match ReadSignal(stderr, output)
      case ParseFailed =>
        step := Finish(SeedUnparseable);
      case NoOp =>
        if strategy in SKIP_WITHOUT_RETRY {
          exhaustedInRound := exhaustedInRound + {strategy};
          step := Finish(Skipped(NoMutation));
        } else {
          step := Inapplicable;
        }
      case Produced(content) =>
        var dup := IsDuplicate(strategy, Some(content));
        step := if dup then Inapplicable else Finish(Mutant(content));
      case NoOutput =>
        step := Retry;
    }

    /** One variant: up to `maxRetries` attempts. An inapplicable attempt
        (a duplicate mutant, a no-op, all points tried) counts against the
        limit and the variant is skipped when the count reaches it. The
        result is a fresh mutant, a skip, a parse failure that ends the
        seed, or no mutant after the last attempt. */
    method RunVariant(strategy: string, attempts: nat -> Attempt, maxRetries: int, tries: int)
      returns (res: VariantResult)
      modifies this
      ensures res.Mutant? && strategy != "" ==>
        res.content !in old(SeenBy(strategy)) && res.content in SeenBy(strategy)
      ensures res.SeedUnparseable? ==>
        strategy != LLM_INJECTION
        && exists a :: 0 <= a < maxRetries && attempts(a).tool.Ran? && Contains(attempts(a).tool.stderr, PARSE_FAILED)
      ensures res == Skipped(Exhausted) ==>
        strategy in SKIP_WITHOUT_RETRY && strategy in exhausted && strategy in exhaustedInRound
      ensures res == Skipped(NoMutation) ==> strategy in SKIP_WITHOUT_RETRY && strategy in exhaustedInRound
      ensures old(exhausted) <= exhausted && old(exhaustedInRound) <= exhaustedInRound
      ensures forall s :: s != strategy ==> SeenBy(s) == old(SeenBy(s))
      ensures old(SeenBy(strategy)) <= SeenBy(strategy)
    {
      var attempt := 0;
      var inapplicable := 0;
      while attempt < maxRetries
        invariant old(exhausted) <= exhausted && old(exhaustedInRound) <= exhaustedInRound
        invariant forall s :: s != strategy ==> SeenBy(s) == old(SeenBy(s))
        invariant old(SeenBy(strategy)) <= SeenBy(strategy)
        decreases maxRetries - attempt
      {
        var step := AttemptStep(strategy, attempts(attempt), tries);
        match step {
          case Finish(r) =>
            return r;
          case Inapplicable =>
            inapplicable := inapplicable + 1;
            if inapplicable >= maxRetries {
              return Skipped(Plain);
            }
          case Retry =>
        }
        attempt := attempt + 1;
      }
      res := GaveUp;
    }

    /** The mutation-point bookkeeping is empty, as for a new seed. */
    predicate Fresh()
      reads this
    {
      known == map[] && used == map[] && exhausted == {} && seen == map[]
    }

    /** The chain evolution after a structural mutant whose stage
        completed: the mutation-point bookkeeping starts afresh for the new
        seed (the exhaustion of the round is kept). Otherwise nothing
        changes. */
    method ResetAfterStructural(strategy: string, r: VariantResult, after: Aftermath, structuralOps: set<string>)
      modifies this
      ensures Chains(strategy, r, after, structuralOps) ==> Fresh()
      ensures !Chains(strategy, r, after, structuralOps) ==>
        known == old(known) && used == old(used) && exhausted == old(exhausted) && seen == old(seen)
      ensures exhaustedInRound == old(exhaustedInRound)
    {
      if Chains(strategy, r, after, structuralOps) {
        known := map[];
        used := map[];
        exhausted := {};
        seen := map[];
      }
    }

    /** One variant run followed by its chain evolution: the round's
        exhaustion only grows, an exhaustion skip leaves the strategy
        exhausted, and a chaining mutant leaves the bookkeeping fresh. */
    method RunAndChain(strategy: string, attempts: nat -> Attempt, after: Aftermath, structuralOps: set<string>,
                       maxRetries: int, tries: int)
      returns (r: VariantResult)
      modifies this
      ensures old(exhaustedInRound) <= exhaustedInRound
      ensures ExhaustionSkip(r) ==> strategy in exhaustedInRound
      ensures Chains(strategy, r, after, structuralOps) ==> Fresh()
      ensures r.Mutant? && strategy != "" && !Chains(strategy, r, after, structuralOps) ==> r.content in SeenBy(strategy)
    {
      r := RunVariant(strategy, attempts, maxRetries, tries);
      ResetAfterStructural(strategy, r, after, structuralOps);
    }

    /** The variants of one round, in plan order: a strategy exhausted for
        the round is passed over, and a parse failure, a mutant persisted
        as a CRASH or HANG, or a mutant after which the disk stays too full
        ends the round (the last one ends the worker too). `attemptsOf(v)` are the inputs of
        the `v`-th variant run and `aftermathOf(v)` what the compile stage
        made of its mutant; `structuralOps` are the pool's structural
        strategies, whose mutants become the next seed. The ghost
        `reached[k]` is the round's exhausted set when the loop reaches
        `plan[k]`, and `taken` lists the plan positions that ran: exactly
        the reached positions whose strategy was not exhausted at that
        moment, in plan order. A strategy skipped because it is exhausted
        (including a no-op under `SKIP_WITHOUT_RETRY`) never runs again in
        the round. */
    method RunRound(plan: seq<string>, attemptsOf: nat -> nat -> Attempt, aftermathOf: nat -> Aftermath,
                    structuralOps: set<string>, seed: string, maxRetries: int, tries: int)
      returns (results: seq<(string, VariantResult)>, nextSeed: string,
               ghost taken: seq<nat>, ghost reached: seq<set<string>>)
      modifies this
      ensures RoundLog(plan, results, taken, reached, old(exhaustedInRound), exhaustedInRound)
      // The round stops early only right after a stopping result, and no
      // earlier result stopped it.
      ensures |reached| < |plan| ==>
        |results| > 0 && StopsRound(results[|results| - 1].1, aftermathOf(|results| - 1))
        && taken[|taken| - 1] == |reached| - 1
      ensures forall j :: 0 <= j < |results| - 1 ==> !StopsRound(results[j].1, aftermathOf(j))
      ensures nextSeed == ChainedSeed(seed, results, aftermathOf, structuralOps)
      ensures LastChains(results, aftermathOf, structuralOps) ==> Fresh()
      ensures old(exhaustedInRound) <= exhaustedInRound
    {
      results, nextSeed, taken, reached := [], seed, [], [];
      var k := 0;
      while k < |plan|
        invariant 0 <= k <= |plan| && k == |reached|
        invariant RoundLog(plan, results, taken, reached, old(exhaustedInRound), exhaustedInRound)
        invariant k == 0 ==> exhaustedInRound == old(exhaustedInRound)
        invariant Unstopped(results, aftermathOf)
        invariant nextSeed == ChainedSeed(seed, results, aftermathOf, structuralOps)
        invariant LastChains(results, aftermathOf, structuralOps) ==> Fresh()
        invariant old(exhaustedInRound) <= exhaustedInRound
      {
        var planned := plan[k];
        if planned !in exhaustedInRound {
          ghost var ex := exhaustedInRound;
          var v := |results|;
          var r := RunAndChain(planned, attemptsOf(v), aftermathOf(v), structuralOps, maxRetries, tries);
          LogRun(plan, results, taken, reached, old(exhaustedInRound), ex, exhaustedInRound, r);
          if Chains(planned, r, aftermathOf(v), structuralOps) {
            nextSeed := r.content;
          }
          UnstoppedAppend(results, (planned, r), aftermathOf);
          ChainedSeedAppend(seed, results, (planned, r), aftermathOf, structuralOps);
          results, taken, reached := results + [(planned, r)], taken + [k], reached + [ex];
          if StopsRound(r, aftermathOf(v)) {
            return;
          }
        } else {
          LogPass(plan, results, taken, reached, old(exhaustedInRound), exhaustedInRound);
          reached := reached + [exhaustedInRound];
        }
        k := k + 1;
      }
    }
  }
}
