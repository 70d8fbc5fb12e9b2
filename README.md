# Traitor, modelled in Dafny

Traitor is a fuzzer for the Rust compiler's trait system. A Python driver
(`main.py` and its helpers) picks seed programs, plans mutation strategies
for each round and runs a Rust mutation tool on the seed. It compiles every
mutant with the stable compiler, and optionally with nightly and with the
next-generation trait solver. A differential oracle then classifies the
outcome: a crash, a hang, a disagreement between compilers, or a success that
may be promoted to a new seed. The driver also keeps the result
directories under their limits, and deduplicates crashes by a normalised
stderr signature.

The mutation tool (`mutation/mutation-AST/src`) parses a Rust file into a
syntax tree. It collects a trait-type dependency net (TTDN: which types
implement which traits, which traits bound which parameters) and applies
one of these mutators:
- add a trait or an impl (Mutation_1);
- inject a trait bound at a constraint site (Mutation_2 and `structural.rs`);
- rewrite a type as an associated-type projection (Mutation_3);
- obfuscate or add outlives bounds to lifetimes (Mutations 4 and 5);
- the expression-level mutators of `non_structural.rs`.

On stderr the tool writes a `MUTATION_CHOICE` line that the driver reads
back, so that it can avoid retrying indices it has already used.

The model follows that split, one module per source component:
- pure syntax-tree rewrites are datatypes and functions over an abstract Rust file (`Syntax`);
- syn's collectors and appliers are classes whose counters advance as they visit the tree, proved against those functions;
- the driver's stateful parts (seed selector, round state, retention) are classes or methods over explicit disk and process inputs.

## Model

| member | source | states |
|---|---|---|
| Retention.WatermarkBounds | trait-fuzzer/main.py:194-198 | the pruning watermark `int(keep * 0.90)` is the floor of 90% of a non-negative limit, strictly below any positive limit, and a negative limit is kept as it is |
| Retention.SortOldestFirst | trait-fuzzer/main.py:118-120 | `_sort_oldest_first` returns a permutation of the listing ordered by modification time, a vanished entry counting as "now" |
| Retention.PruneOldest | trait-fuzzer/main.py:123-141 | a negative limit changes nothing; otherwise the oldest entries are popped until `max_keep` remain and each is deleted, a failed deletion being skipped; nothing outside the listing is deleted |
| Retention.PruneOldestFiles | trait-fuzzer/main.py:145-162 | as `_prune_oldest`, but sorting reads each file's mtime directly, so a vanished file makes the call raise before anything is deleted |
| Retention.PruneKeepsNewest | trait-fuzzer/main.py:123-141 | after pruning to `max_keep >= 0` exactly `min(n, max_keep)` entries survive, every victim is no younger than every survivor, victims and survivors together are the original listing, every deletable victim is gone and every other entry is untouched |
| Retention.CountCapFacts | trait-fuzzer/main.py:223-240 | the `max_cases` loop deletes only listed cases, raises only for a negative target, and with distinct deletable entries leaves exactly `min(n, target)` |
| Retention.ByteCapFacts | trait-fuzzer/main.py:242-266 | the `max_results_gb` loop deletes only listed cases, never lets the counted size grow, and stops at or below the byte target unless it runs out of cases |
| Retention.ListCategory | trait-fuzzer/main.py:98-115 | a category listing holds exactly the case folders of that category, each once |
| Retention.PruneCategory | trait-fuzzer/main.py:193-209 | a `keep_*` limit deletes only within its own category and changes nothing unless the limit is non-negative and the listing exceeds it; a pruned listing keeps exactly its `Watermark(keep)` newest entries (a permutation split, none younger than a dropped one), and the store afterwards is exactly the old one minus the older entries that can be deleted, every other entry unchanged |
| Retention.PruneRewrites | trait-fuzzer/main.py:212-218 | the rewritten-seed limit deletes only rewrite files; it raises exactly when the folder exists, the limit is non-negative, the glob listed more files than the limit and one of them has vanished; it changes nothing when not applied or when it raises, and otherwise leaves the store minus the deletable files older than the `Watermark(keep)` newest |
| Retention.CountCapPopsPrefix | trait-fuzzer/main.py:230-240 | the `max_cases` loop pops from the front: what it leaves is a suffix of its list, and the store is the old one minus the deletable entries of the popped prefix |
| Retention.ByteCapPopsPrefix | trait-fuzzer/main.py:255-266 | the `max_results_gb` loop pops from the front in the same way: a suffix is left and exactly the deletable popped entries are gone |
| Retention.SortedCountCap | trait-fuzzer/main.py:221-240 | the case cap over a reordering of the SUCCESS and ERROR lists touches only those categories, raises only for a negative target, leaves a suffix with the popped prefix deleted, and with distinct deletable entries leaves exactly `min(n, target)` |
| Retention.SortedByteCap | trait-fuzzer/main.py:242-266 | the byte cap over the SUCCESS and ERROR folders touches only those categories, leaves a suffix with the popped prefix deleted, never grows the counted size, and with deletable folders ends at or below the target unless they run out |
| Retention.MaxCasesPhase | trait-fuzzer/main.py:221-240 | with a cap, the lists are sorted oldest first and the result is exactly the count loop's from the watermark target (`int(max_cases * 0.90)` when over the cap, else the cap): the survivors are the newest suffix of the sorted list and the store loses exactly the deletable popped entries; with a non-negative cap and distinct deletable entries exactly `min(n, target)` survive; only SUCCESS and ERROR cases go, nothing happens without a cap, and it raises only for a negative cap |
| Retention.MaxBytesPhase | trait-fuzzer/main.py:242-266 | with a cap, the SUCCESS and ERROR folders are listed again, each once, sorted oldest first, and the result is exactly the byte loop's from the watermark target: the newest suffix survives, the store loses exactly the deletable popped folders, the counted size never grows and, when every folder is deletable, ends at or below the target unless the folders ran out; nothing happens without a cap |
| Retention.PruneSuccessAndError | trait-fuzzer/main.py:189-202 | both listings are taken before any deletion; each is pruned exactly as `PruneCategory` states (over its limit, the `Watermark(keep)` newest kept and the deletable older ones deleted; otherwise untouched), SUCCESS first, and only SUCCESS and ERROR cases go |
| Retention.PruneFateAndRewrites | trait-fuzzer/main.py:205-218 | the FATE and rewrite limits delete only FATE cases and rewrite files, a FATE case only when the FATE listing exceeds its limit, and the call raises exactly when the rewrite pruning does |
| Retention.PerCategoryLimits | trait-fuzzer/main.py:188-219 | per-category pruning deletes only prunable categories (never HANG or CRASH), a FATE case goes only when the FATE listing exceeds its own limit, and an exception escapes exactly when the rewrite listing is pruned and has a vanished file |
| Retention.EnforceResultsLimits | trait-fuzzer/main.py:169-283 | HANG and CRASH cases are never deleted; FATE cases only by their own limit; a vanished file in a pruned rewrite listing always makes an exception escape, and otherwise one escapes only from a negative `max_cases`; the worker is told to stop exactly when the free space after pruning is below `min_free_gb` |
| PromotedDirs.MaxSuffix | trait-fuzzer/main.py:289-299 | the scan's maximum is at least every numeric suffix of a `prefix*` directory and is one of them, or 0 when there is none |
| PromotedDirs.PickNextNewSeedDir | trait-fuzzer/main.py:286-301 | the picked name is exactly the prefix followed by the decimal digits of `MaxSuffix + 1`: at least 1, above every numeric suffix of an existing `prefix*` directory, and exactly one above the largest one (1 when there is none) |
| PromotedDirs.NextDirIsFresh | trait-fuzzer/main.py:286-301 | the picked name is not the name of any existing directory |
| PromotedDirs.MaybeRollPromotedDir | trait-fuzzer/main.py:320-342 | the current directory is kept when the cap is off, the directory cannot be inspected, it holds fewer seeds than the cap, or creating the next one fails; otherwise the result is exactly `prefix<MaxSuffix + 1>`, an empty prefix meaning `new`, and no existing directory has that name |
| SeedSelection.FamilyFromStemSplits | trait-fuzzer/main.py:752-761 | a stem is split at the first `__fam__` marker, and a stem without one yields the seed's own path |
| SeedSelection.InferFamilyOfTaggedName | trait-fuzzer/main.py:752-761 | a seed named `<name>__fam__<tag>` belongs to family `tag` |
| SeedSelection.UntaggedIsOwnFamily | trait-fuzzer/main.py:752-761 | a seed without the marker is its own family |
| SeedSelection.RawScore | trait-fuzzer/main.py:633-654 | the score is the constraint-choice sum when that is positive, and otherwise exactly `max(1, depth * 20 + cycles)` |
| SeedSelection.UsablePaths | trait-fuzzer/main.py:484-498 | a path is listed exactly when some usable file of the sorted `*.rs` listing (a non-empty regular file without rustc-internal features) has it |
| SeedSelection.UsableListing | trait-fuzzer/main.py:488-498 | the loop over the directory listing collects the usable paths in listing order, without repeats |
| SeedSelection.TakeShard | trait-fuzzer/main.py:503-506 | the shard holds the listed path at position `j` exactly when `j % shards == shardIndex`, without repeats |
| SeedSelection.Without | trait-fuzzer/main.py:839-869 | `[y for y in xs if y != x]` keeps exactly the other elements of the list |
| SeedSelection.PushKeepsNewest | trait-fuzzer/main.py:736-744 | appending to a bounded `deque` keeps the newest `maxlen` elements of the history in order, dropping the oldest only when full |
| SeedSelection.SeedSelector.constructor | trait-fuzzer/main.py:465-561 | the seeds are exactly the usable files whose position `j` in the usable listing satisfies `j % shards == shardIndex` (shard count clamped to 1), so a single shard takes them all; the selector remembers exactly the promoted ones and uses `new` for an empty prefix; the repeat windows are the configured ones clamped at 0, the retry limit the configured one clamped to at least 1, the per-seed pick cap as configured; it starts with no picks, no recency, no families, no bans and no scores |
| SeedSelection.SeedSelector.FamilyKey | trait-fuzzer/main.py:745-750 | `_family_key` memoises the inferred family and never changes the family of any seed |
| SeedSelection.SeedSelector.EligibleSeeds | trait-fuzzer/main.py:693-711 | the eligible seeds are exactly the seeds whose family is not banned and which are under the per-seed pick budget |
| SeedSelection.SeedSelector.ChoosePoolCandidates | trait-fuzzer/main.py:678-691 | the pool is non-empty for a non-empty input, lies within it, is all promoted or all base, is the promoted pool when that is wanted and non-empty, and the base pool when that is wanted and non-empty |
| SeedSelection.SeedSelector.SeedWindow | trait-fuzzer/main.py:771-779 | recently picked seeds are avoided unless that would leave nothing, and the result is never empty for a non-empty input |
| SeedSelection.SeedSelector.CandidatesWithinWindow | trait-fuzzer/main.py:771-786 | the result is non-empty for a non-empty input, lies within it, avoids recent seeds when some non-recent one exists, and then avoids recent families when some seed of another family remains |
| SeedSelection.SeedSelector.RecordPick | trait-fuzzer/main.py:736-744 | one more pick for the seed and for its family, each pushed into its recency window when enabled |
| SeedSelection.SeedSelector.BanFamily | trait-fuzzer/main.py:766-769 | a given family joins the banned set; `None` is ignored |
| SeedSelection.SeedSelector.ScoreOne | trait-fuzzer/main.py:633-654 | the score is at least 1, a cached (path, mtime) entry is reused, and a fresh one is the raw score of the tool's metrics and is cached |
| SeedSelection.SeedSelector.CalculateScores | trait-fuzzer/main.py:622-631 | every seed gets a score of at least 1, a seed that cannot be inspected scores 1, and scoring is marked as started |
| SeedSelection.SeedSelector.AddSeed | trait-fuzzer/main.py:656-676 | a readable new `.rs` file without internal-only features is appended, marked promoted exactly when it lies in a promoted directory, given the supplied family or the inferred one, and scored once scoring has started; any other file changes nothing |
| SeedSelection.SeedSelector.RemoveSeed | trait-fuzzer/main.py:839-869 | an absent seed changes nothing; a present one leaves the list, the scores, the promoted set, the pick counts and the family map, and is filtered out of the recency window; its family's counter and recency entries are dropped |
| SeedSelection.SeedSelector.Candidates | trait-fuzzer/main.py:806-827 | the list `select` draws from contains only eligible seeds and is non-empty whenever some seed is eligible |
| SeedSelection.SeedSelector.PickWithRetry | trait-fuzzer/main.py:791-802 | at most `pickRetryLimit` candidates are drawn; a pick is the last draw, on disk, and every earlier draw had vanished; with every candidate on disk a pick is made; `None` for a non-empty list means all `pickRetryLimit` draws had vanished, so some candidate is off disk; exactly the vanished draws are removed, and seeds still on disk keep their family and pick count |
| SeedSelection.SeedSelector.Select | trait-fuzzer/main.py:787-837 | no eligible seed gives `None`; with eligible seeds whose candidates are all on disk a pick is made, and `None` there means some candidate is off disk; a pick comes from the candidate list, exists on disk, is still a seed, and has its pick count raised by one; only candidates that are off disk are removed |
| SeedSelection.SeedSelector.PickAndRecord | trait-fuzzer/main.py:818-821 | a successful draw is a candidate on disk and has its pick recorded; with every candidate on disk the draw succeeds; only candidates off disk are removed |
| SeedFilter.Head | trait-fuzzer/main.py:576 | only the first 8000 characters are inspected |
| SeedFilter.CopiesAgree | trait-fuzzer/utils/import_rust_analyzer_fixtures.py:6-30 | the selector's `_is_internal_only_seed` and the importer's `_is_internal_only_seed_text` give the same verdict on every file, an unreadable one included |
| SeedFilter.OnlyHeadMatters | trait-fuzzer/main.py:563-606 | text past the first 8000 characters never changes the verdict |
| SeedFilter.InternalOnlyExtends | trait-fuzzer/utils/import_rust_analyzer_fixtures.py:6-30 | appending text to an internal-only head keeps it internal-only |
| SeedFilter.Dedup | trait-fuzzer/utils/import_rust_analyzer_fixtures.py:66 | `list(dict.fromkeys(xs))` has the same elements as `xs`, each once |
| SeedFilter.DedupFromKeepsOrder | trait-fuzzer/utils/import_rust_analyzer_fixtures.py:66 | the de-duplicated list keeps the order of first occurrences |
| SeedFilter.ImportFixtures | trait-fuzzer/utils/import_rust_analyzer_fixtures.py:68-97 | every listed path is copied, skipped as internal-only, or skipped as a non-file, exactly one of them; nothing is skipped as internal-only without the flag; the list of copied source paths (whose length is the `copied` counter) holds exactly the files the rule keeps |
| RoundController.PlanStrategies | trait-fuzzer/main.py:1307-1326 | the round plan is the leaf-mutator copies (unless structural-only) followed by the structural picks that were drawn, a `None` pick being dropped |
| RoundController.PlanLayout | trait-fuzzer/main.py:1308-1320 | the plan holds `constraint_injection`, `projection_rewrite`, `lifetime_obfuscation` and `lifetime_outlive` in that order, each repeated its per-round count (none for a non-positive count), then the structural picks |
| RoundController.StructuralOnlyPlan | trait-fuzzer/main.py:1307-1326 | in structural-only mode the plan holds exactly the structural picks that were drawn |
| RoundController.DrawnMembers | trait-fuzzer/main.py:1322-1326 | a drawn structural operation is in the plan exactly when the picker returned it |
| RoundController.ReadSignal | trait-fuzzer/main.py:1557-1613 | the tool's stderr reads as a parse failure exactly when it holds `Parse failed:`, otherwise as a no-op exactly when it holds `No mutation performed`, otherwise as a produced mutant exactly when the output file exists, whose text is the mutant |
| RoundController.ParseFailureWins | trait-fuzzer/main.py:1557-1569 | the two lines the tool prints for an unparseable seed read as a parse failure, although they also say no mutation was performed |
| RoundController.NoMutationLineIsNoOp | trait-fuzzer/main.py:1570-1590 | a stderr ending in the tool's no-mutation status line, without a parse failure, reads as a no-op |
| RoundController.UnusedIndexExists | trait-fuzzer/main.py:1470-1481 | while fewer than `count` indices are used, an unused index below `count` exists, so the fallback `random.choice(remaining)` always has something to choose from |
| RoundController.RoundState.constructor | trait-fuzzer/main.py:1227-1235 | a fresh controller knows no counts, has used no index, has seen no mutant and has exhausted no strategy |
| RoundController.RoundState.StartRound | trait-fuzzer/main.py:1227-1235 | a round starts with no known counts, no used indices and no exhausted strategy, and keeps the mutant hashes seen so far |
| RoundController.RoundState.IsDuplicate | trait-fuzzer/main.py:1351-1358 | a mutant is a duplicate exactly when its strategy is named, it has content, and that content was already seen for the strategy; the content is then recorded, and nothing else changes |
| RoundController.RoundState.PickIndex | trait-fuzzer/main.py:1436-1481 | without a known count no index is forced; a non-positive count, or every index below the count used, exhausts the strategy for the round; otherwise the forced index is below the count and unused, and it is the first of the `tries` draws that hit an unused index, falling back to any unused index only when every one of those draws hit a used one |
| RoundController.RoundState.RecordChoice | trait-fuzzer/main.py:1516-1555 | the tool's `MUTATION_CHOICE` line records the count and the used site index for the plain modes (exhausting the strategy when all are used), and the choice count and choice index for the two choice-space modes |
| RoundController.RoundState.RecordPoint | trait-fuzzer/main.py:1522-1529 | a plain mode's count and index are recorded, and the strategy is exhausted once every index below a positive count is used |
| RoundController.RoundState.RecordTried | trait-fuzzer/main.py:1530-1551 | a choice-space mode's choice count and choice index are recorded without touching exhaustion |
| RoundController.RoundState.InjectorStep | trait-fuzzer/main.py:1404-1423 | the LLM injector gives up without output, a seen mutant is inapplicable and is retried, and a new mutant finishes the attempt and is recorded |
| RoundController.RoundState.ToolStep | trait-fuzzer/main.py:1483-1613 | one tool run finishes with an unparseable seed exactly when stderr says so, otherwise with a fresh mutant or, for the skip-without-retry modes, a no-op; a returned mutant was not seen before and is now |
| RoundController.RoundState.AttemptStep | trait-fuzzer/main.py:1359-1625 | one attempt of the retry loop: a returned mutant is new for its strategy, an unparseable seed comes from a tool run, and the exhausted and skip outcomes only for `constraint_injection`, `add_trait` and `add_impl` |
| RoundController.RoundState.RunVariant | trait-fuzzer/main.py:1338-1640 | at most `max_retries` attempts: a mutant returned is new for its strategy and recorded, an unparseable seed was reported by some attempt's tool run, exhaustion only grows, and other strategies' seen sets are untouched |
| RoundController.RoundState.ResetAfterStructural | trait-fuzzer/main.py:1922-1929 | after a structural mutant whose compile stage completed, the tried indices, known counts, exhausted strategies and seen mutants are emptied; the round's exhausted set is kept; otherwise nothing changes |
| RoundController.RoundState.RunRound | trait-fuzzer/main.py:1328-1987 | the variants that run are exactly the reached plan entries whose strategy was not in the round's exhausted set when the loop reached them, in plan order; that set only grows, so a strategy skipped as exhausted (including a `SKIP_WITHOUT_RETRY` no-op) never runs again; the round stops early only right after an unparseable seed, a mutant persisted as CRASH or HANG, or a mutant whose pre-persist retention check left free space below the minimum (the worker's `return` at main.py:1794-1804), and no earlier variant was one; the next seed is the last structural mutant whose compile stage completed without that out-of-space return, and after such a mutant the mutation-point bookkeeping is empty |
| Oracle.WorstFromIsMax | trait-fuzzer/main.py:1717-1721 | the left-to-right scan keeps a result of the highest rank, preferring the earliest on ties |
| Oracle.OverallStatus | trait-fuzzer/main.py:1717-1721 | the overall result is one of stable, nightly and next-solver, and ranks at least as high as every one that ran |
| Oracle.SeedIsFate | trait-fuzzer/main.py:1129-1154 | a seed is fate exactly when some baseline result CRASHes or HANGs, and never when the baseline check raises |
| Oracle.MiscompilationNotSuccess | trait-fuzzer/main.py:1738-1749 | a miscompilation is symmetric in the two nightly modes, has one SUCCESS and one ERROR, and then the overall status is never SUCCESS |
| Oracle.Classify | trait-fuzzer/main.py:1729-1789 | the family is banned and the seed halted exactly for CRASH or HANG; the case is fate exactly when the baseline already miscompiles a miscompilation or already crashes or hangs a CRASH or HANG; SUCCESS is dropped only when successes are not kept; the destinations are the status folder and `miscompilation`, each once |
| Oracle.BaselineMiscompilationIsFate | trait-fuzzer/main.py:1751-1755 | a miscompilation the baseline already shows is stored under fate only |
| Oracle.PromotionLedger.constructor | trait-fuzzer/main.py:974 | the ledger starts with no promotions and the configured per-seed cap |
| Oracle.PromotionLedger.TryPromote | trait-fuzzer/main.py:1931-1976 | a SUCCESS mutant of `constraint_injection` is promoted exactly when promotion is on, the cap is positive, its seed is under the cap and writing succeeds; only then does that seed's count go up by one |
| CompilerInterface.ExitStatus | trait-fuzzer/utils/compiler/interface.py:52-56 | an exited compiler is CRASH exactly when stderr mentions an internal compiler error or a rustc panic (in any letter case), else SUCCESS exactly for exit code 0, else ERROR |
| CompilerInterface.Compile | trait-fuzzer/utils/compiler/interface.py:42-103 | an exit keeps the code and both streams; a timeout is HANG with no code and stderr `TimeoutExpired`; any other exception is UNKNOWN with code -1 and the message as stderr |
| CompilerInterface.StatusOrigin | trait-fuzzer/utils/compiler/interface.py:42-103 | each status has exactly one origin: HANG a timeout, UNKNOWN an exception, CRASH an ICE marker, SUCCESS a clean exit 0, ERROR any other exit |
| CompilerInterface.IceWinsOverExitCode | trait-fuzzer/utils/compiler/interface.py:54-56 | an internal-compiler-error message makes the result CRASH whatever the exit code |
| CompilerInterface.PanicWinsOverExitCode | trait-fuzzer/utils/compiler/interface.py:54-56 | a `thread 'rustc' panicked` message makes the result CRASH whatever the exit code |
| MutatorPool.NewPool | trait-fuzzer/mutation/mutator_pool.py:6-30 | without configuration the pool weighs structural 0.4, non-structural 0.4 and LLM injection 0.2, and gives every structural operation sub-weight 1.0; a configured table is used as given |
| MutatorPool.DrawableStructural | trait-fuzzer/mutation/mutator_pool.py:40-44 | the structural operations that can be drawn are those with a positive sub-weight, or all four when none has one |
| MutatorPool.SelectStrategy | trait-fuzzer/mutation/mutator_pool.py:32-55 | a structural draw yields a drawable structural operation, a non-structural draw one of the five expression mutators, and any other strategy is returned as it is |
| MutatorPool.EveryStructuralReachable | trait-fuzzer/mutation/mutator_pool.py:40-45 | every drawable structural operation is returned by some draw |
| MutatorPool.EveryPlainReachable | trait-fuzzer/mutation/mutator_pool.py:46-53 | every non-structural operation is returned by some draw |
| MutatorPool.DefaultSubweightsDrawAll | trait-fuzzer/mutation/mutator_pool.py:26-30 | with the default sub-weights all four structural operations can be drawn |
| MutatorPool.UpdateWeights | trait-fuzzer/mutation/mutator_pool.py:57-62 | feedback leaves the pool unchanged |
| Deduplicator.WhitespaceDoesNotSplitGroups | trait-fuzzer/utils/analysis/deduplicator.py:36-42 | inserting whitespace into a log does not change its signature, and a signature holds no whitespace |
| Deduplicator.Deduplicate | trait-fuzzer/utils/analysis/deduplicator.py:11-50 | a missing category yields no groups; otherwise the groups are those of the processed cases keyed by signature |
| Deduplicator.GroupsAreSignatureClasses | trait-fuzzer/utils/analysis/deduplicator.py:21-45 | there is a group for exactly the signatures that occur, holding exactly the cases with that signature |
| Deduplicator.EachCaseInExactlyOneGroup | trait-fuzzer/utils/analysis/deduplicator.py:23-45 | every processed case lies in the group of its own signature and in no other |
| Deduplicator.SaveReport | trait-fuzzer/utils/analysis/deduplicator.py:52-59 | the report carries the deduplicated grouping unchanged, with `total_unique` its number of groups; `ReportCountsSignatures` shows that this is the number of distinct failure signatures |
| Deduplicator.ReportCountsSignatures | trait-fuzzer/utils/analysis/deduplicator.py:52-59 | the saved report of a deduplicated listing has one group per distinct failure signature among the processed cases, and `total_unique` is the number of those signatures |
| TraitRewriter.Rewrite | trait-fuzzer/LLM/agents/trait_rewriter.py:28-41 | a failed query gives `None`; any reply is cleaned to text with no surrounding whitespace |
| TraitRewriter.FencedCodeRecovered | trait-fuzzer/LLM/agents/trait_rewriter.py:31-38 | code wrapped in a ```` ```rust ```` fence is recovered exactly |
| TraitRewriter.BothLeadingFencesDropped | trait-fuzzer/LLM/agents/trait_rewriter.py:32-35 | a reply starting with ```` ```rust ```` followed by ```` ``` ```` loses both fences |
| TraitRewriter.StripAroundClean | trait-fuzzer/LLM/agents/trait_rewriter.py:31 | `strip` removes surrounding whitespace and nothing else |
| Ttdn.PushAssocTypes | trait-fuzzer/mutation/mutation-AST/src/ttdn.rs:195-201 | a trait's associated types are appended as (trait, associated type) pairs, one per associated type, in member order, after what was there |
| Ttdn.PushSupertraits | trait-fuzzer/mutation/mutation-AST/src/ttdn.rs:203-211 | a (trait, supertrait) edge is appended for each supertrait bound that is a single identifier, in bound order; other bounds add nothing |
| Ttdn.VisitTrait | trait-fuzzer/mutation/mutation-AST/src/ttdn.rs:192-214 | a trait adds its name to the traits, its associated-type pairs and its supertrait edges; the other lists are untouched |
| Ttdn.VisitImpl | trait-fuzzer/mutation/mutation-AST/src/ttdn.rs:226-256 | an impl adds its impl edge and one binding per associated type, and only when both the trait path and the self type are bare identifiers; traits, types and supertrait edges are untouched |
| Ttdn.VisitItem | trait-fuzzer/mutation/mutation-AST/src/ttdn.rs:191-256 | each item extends every list by exactly its own contribution: structs and enums add their name to the types, traits and impls as above, other items nothing |
| Ttdn.Collect | trait-fuzzer/mutation/mutation-AST/src/ttdn.rs:258-262 | the walk over the file gathers every item's contributions in file order (the unsorted collection) |
| Ttdn.SameMembers | trait-fuzzer/mutation/mutation-AST/src/ttdn.rs:264-303 | sorting and de-duplicating under a key that tells elements apart keeps exactly the elements of the input |
| Ttdn.SortNames | trait-fuzzer/mutation/mutation-AST/src/ttdn.rs:264-270 | trait and type names come out strictly sorted by their text and with exactly the collected names |
| Ttdn.SortPairs | trait-fuzzer/mutation/mutation-AST/src/ttdn.rs:271-286 | impl edges, supertrait edges and associated-type pairs come out strictly sorted by the pair of texts and with exactly the collected pairs |
| Ttdn.FromFile | trait-fuzzer/mutation/mutation-AST/src/ttdn.rs:186-306 | every list of the summary is strictly sorted by its key and holds exactly the collected elements; bindings keep one binding per distinct key, each one a collected binding |
| Ttdn.ImplEdgesOnlyForIdentImpls | trait-fuzzer/mutation/mutation-AST/src/ttdn.rs:226-233 | (ty, tr) is an impl edge if and only if some trait impl of the file has bare-identifier trait tr and bare-identifier self type ty |
| Ttdn.BindingsOnlyForIdentImpls | trait-fuzzer/mutation/mutation-AST/src/ttdn.rs:226-250 | every binding's (self type, trait) pair is also an impl edge |
| Ttdn.AnyConstraintPair | trait-fuzzer/mutation/mutation-AST/src/ttdn.rs:308-311 | none exactly when there are no impl edges; otherwise one of the impl edges |
| Ttdn.CountTraitChoices | trait-fuzzer/mutation/mutation-AST/src/ttdn.rs:81-84 | never 0: the number of pool traits not already present, or 1 when there are none |
| Ttdn.WhereSiteChoices | trait-fuzzer/mutation/mutation-AST/src/ttdn.rs:119-151 | an impl's where site offers at least one choice, even with no type parameters and no identifiable self type |
| Ttdn.Choices | trait-fuzzer/mutation/mutation-AST/src/ttdn.rs:107-174 | every site offers at least one choice |
| Ttdn.WhereBoundMap | trait-fuzzer/mutation/mutation-AST/src/ttdn.rs:51-79 | the map's keys are exactly the bare-identifier types some where-predicate bounds, and each maps to all single-identifier traits the predicates put on it; an absent type has no where bounds |
| Ttdn.EdgeTraitsBySelf | trait-fuzzer/mutation/mutation-AST/src/ttdn.rs:92-98 | each implementing type maps to exactly the traits its impl edges give it; a type with no edge has none |
| Ttdn.VisitParams | trait-fuzzer/mutation/mutation-AST/src/ttdn.rs:155-164 | visiting a parameter list counts one site per type parameter, each with its choices, on top of the running metrics |
| Ttdn.ParamsChoices | trait-fuzzer/mutation/mutation-AST/src/ttdn.rs:126-132 | the loop over an impl's parameters sums, per type parameter, the custom traits its where-clause does not yet put on it |
| Ttdn.ImplSiteChoices | trait-fuzzer/mutation/mutation-AST/src/ttdn.rs:119-151 | the choices computed with the where-bound map and the impl-edge map equal the reference count of the where site |
| Ttdn.VisitTraitMembers | trait-fuzzer/mutation/mutation-AST/src/ttdn.rs:166-173 | a trait's members add an associated-type-bound site per associated type and the parameter sites of its methods, in order |
| Ttdn.VisitImplMembers | trait-fuzzer/mutation/mutation-AST/src/ttdn.rs:153 | an impl's members add the parameter sites of its associated types and methods, in order |
| Ttdn.VisitTraitMetrics | trait-fuzzer/mutation/mutation-AST/src/ttdn.rs:108-117 | a trait adds its supertrait site, then its parameter and member sites, each with its choices |
| Ttdn.VisitImplMetrics | trait-fuzzer/mutation/mutation-AST/src/ttdn.rs:119-153 | an impl adds its where site, then its parameter and member sites, each with its choices |
| Ttdn.VisitItemMetrics | trait-fuzzer/mutation/mutation-AST/src/ttdn.rs:107-174 | each item adds exactly the sites of that item, each with its choices |
| Ttdn.ConstraintChoiceMetricsOf | trait-fuzzer/mutation/mutation-AST/src/ttdn.rs:86-183 | the site count is the number of constraint sites of the file, the choice sum is the sum of their choices, and so the sum is at least the count |
| ConstraintInjection.DedupedMembers | trait-fuzzer/mutation/mutation-AST/src/mutators/Mutation_2.rs:258-280 | de-duplication keeps exactly the elements of its input |
| ConstraintInjection.DedupedDistinct | trait-fuzzer/mutation/mutation-AST/src/mutators/Mutation_2.rs:258-280 | de-duplication leaves no element twice |
| ConstraintInjection.DedupedFirstOrder | trait-fuzzer/mutation/mutation-AST/src/mutators/Mutation_2.rs:258-280 | the kept elements come in the order of their first occurrence in the input |
| ConstraintInjection.DedupedOfDistinct | trait-fuzzer/mutation/mutation-AST/src/mutators/Mutation_2.rs:258-280 | a list without repeats comes back unchanged, so de-duplication is idempotent |
| ConstraintInjection.Dedup | trait-fuzzer/mutation/mutation-AST/src/mutators/Mutation_2.rs:258-280 | the seen-set loop of `dedup_bounds` and `dedup_preds` computes the de-duplication |
| ConstraintInjection.Unbound | trait-fuzzer/mutation/mutation-AST/src/mutators/Mutation_2.rs:433-464 | a bound is offered if and only if it names a trait of the summary, is not the site's own trait and is not already a bound of the site |
| ConstraintInjection.BoundCandidates | trait-fuzzer/mutation/mutation-AST/src/mutators/Mutation_2.rs:433-464 | the candidates of a bound site are exactly the offered bounds, each once |
| ConstraintInjection.CandidateBounds | trait-fuzzer/mutation/mutation-AST/src/mutators/Mutation_2.rs:433-464 | the push loop followed by de-duplication yields exactly the candidates of the site |
| ConstraintInjection.EdgeMapIndexes | trait-fuzzer/mutation/mutation-AST/src/mutators/Mutation_2.rs:532-545 | the type-to-traits map built from the impl edges holds exactly the impl edges |
| ConstraintInjection.PushEdgePreds | trait-fuzzer/mutation/mutation-AST/src/mutators/Mutation_2.rs:590-620 | for one type, a `Ty: Trait` predicate is pushed for exactly the traits of its pool |
| ConstraintInjection.PushParamPreds | trait-fuzzer/mutation/mutation-AST/src/mutators/Mutation_2.rs:567-588 | the local-parameter predicates keep what was there and add only impl-edge predicates |
| ConstraintInjection.PushConcretePreds | trait-fuzzer/mutation/mutation-AST/src/mutators/Mutation_2.rs:609-620 | the concrete-type pass adds exactly one `Ty: Trait` predicate per impl edge |
| ConstraintInjection.PushProjPreds | trait-fuzzer/mutation/mutation-AST/src/mutators/Mutation_2.rs:484-498 | for one implementing type, exactly the projections `<Ty as Trait>::Assoc: Bound` over the traits of the file are added |
| ConstraintInjection.PushBindingPreds | trait-fuzzer/mutation/mutation-AST/src/mutators/Mutation_2.rs:474-482 | exactly the projections of the impls' associated-type bindings, bounded by each trait of the file, are added |
| ConstraintInjection.PushAssocPreds | trait-fuzzer/mutation/mutation-AST/src/mutators/Mutation_2.rs:484-506 | exactly the projections of declared associated types over types implementing their trait are added |
| ConstraintInjection.WhereCandidates | trait-fuzzer/mutation/mutation-AST/src/mutators/Mutation_2.rs:513-636 | the candidates of an impl's where site are exactly its where-candidates (an impl-edge or projection predicate not already in its where clause), each once |
| ConstraintInjection.ParamsInject | trait-fuzzer/mutation/mutation-AST/src/mutators/Mutation_2.rs:948-956 | injecting into a parameter list changes at most the target site, in the stated way, and leaves the list unchanged exactly when that site has nothing to push |
| ConstraintInjection.TraitMembersInject | trait-fuzzer/mutation/mutation-AST/src/mutators/Mutation_2.rs:958-965 | the same for a trait's members |
| ConstraintInjection.ImplMembersInject | trait-fuzzer/mutation/mutation-AST/src/mutators/Mutation_2.rs:948-956 | the same for an impl's members |
| ConstraintInjection.TraitItemInjects | trait-fuzzer/mutation/mutation-AST/src/mutators/Mutation_2.rs:930-938 | the same for a trait: its supertrait site receives a candidate at the target, and the rest is walked in order |
| ConstraintInjection.ImplItemInjects | trait-fuzzer/mutation/mutation-AST/src/mutators/Mutation_2.rs:940-946 | the same for an impl: its where site receives the chosen predicate at the target |
| ConstraintInjection.ItemInjects | trait-fuzzer/mutation/mutation-AST/src/mutators/Mutation_2.rs:929-965 | the same for any item |
| ConstraintInjection.InjectFileSites | trait-fuzzer/mutation/mutation-AST/src/mutators/Mutation_2.rs:929-965 | injecting into a file edits only the target site (pushing the candidate at the given index, or the chosen where-predicate) and no other site's constraints; the file is unchanged exactly when the target site has nothing to push |
| ConstraintApplier.FileUntouched | trait-fuzzer/mutation/mutation-AST/src/mutators/Mutation_2.rs:929-965 | an injection aimed outside a file's sites leaves the file unchanged, whatever candidate index or where-predicate was chosen |
| ConstraintApplier.PushCandidateAt | trait-fuzzer/mutation/mutation-AST/src/mutators/Mutation_2.rs:638-652 | with an index below the number of candidates, the bound list grows by exactly that candidate, so it always changes |
| ConstraintApplier.InjectionOutcome | trait-fuzzer/mutation/mutation-AST/src/mutators/Mutation_2.rs:929-965 | the injection edits only the target site, and changes the file exactly when the target is a site that has something to inject |
| ConstraintApplier.Applier.constructor | trait-fuzzer/mutation/mutation-AST/src/mutators/Mutation_2.rs:96-113 | a fresh applier: counter 0, not mutated, nothing injected, with the given target, summary and requested index |
| ConstraintApplier.Applier.PickIndex | trait-fuzzer/mutation/mutation-AST/src/mutators/Mutation_2.rs:643-646 | the candidate index is below the number of candidates, and is the requested index modulo that number when one is given |
| ConstraintApplier.Applier.InjectBounds | trait-fuzzer/mutation/mutation-AST/src/mutators/Mutation_2.rs:638-705 | `inject_supertrait`, `inject_generic_bound`, `inject_assoc_bound`: the count becomes the number of candidates; with none the bounds stay and the call reports false; otherwise the chosen candidate (the requested one modulo the count) is pushed and the call reports true |
| ConstraintApplier.Applier.InjectWhere | trait-fuzzer/mutation/mutation-AST/src/mutators/Mutation_2.rs:654-672 | `inject_where_predicate`: pushes exactly when the impl has a where-candidate; the pushed predicate is one, and is the requested one modulo the count when an index is given; otherwise nothing changes and the count is 0 |
| ConstraintApplier.Applier.VisitParam | trait-fuzzer/mutation/mutation-AST/src/mutators/Mutation_2.rs:948-956 | a type parameter is one site: at the target its bounds receive the candidate, elsewhere it is untouched; the counter moves past it |
| ConstraintApplier.Applier.VisitParams | trait-fuzzer/mutation/mutation-AST/src/mutators/Mutation_2.rs:948-956 | a parameter list is walked in order: the result is the list injected at the target offset and the counter moves by its number of sites |
| ConstraintApplier.Applier.VisitTraitMember | trait-fuzzer/mutation/mutation-AST/src/mutators/Mutation_2.rs:958-965 | an associated type is one site that receives a bound at the target; a method's type parameters are walked |
| ConstraintApplier.Applier.VisitTraitMembers | trait-fuzzer/mutation/mutation-AST/src/mutators/Mutation_2.rs:958-965 | a trait's members are walked in order, injected at the target offset |
| ConstraintApplier.Applier.VisitImplMember | trait-fuzzer/mutation/mutation-AST/src/mutators/Mutation_2.rs:948-956 | an impl member's type parameters are walked |
| ConstraintApplier.Applier.VisitImplMembers | trait-fuzzer/mutation/mutation-AST/src/mutators/Mutation_2.rs:948-956 | an impl's members are walked in order, injected at the target offset |
| ConstraintApplier.Applier.VisitSupertraitSite | trait-fuzzer/mutation/mutation-AST/src/mutators/Mutation_2.rs:930-935 | at the target a trait's supertraits receive a candidate; elsewhere they are untouched; the counter moves by one |
| ConstraintApplier.Applier.VisitTrait | trait-fuzzer/mutation/mutation-AST/src/mutators/Mutation_2.rs:930-938 | a trait's supertrait site, parameters and members are walked in order; the result is the trait injected at the target offset and it differs exactly when something was pushed |
| ConstraintApplier.Applier.VisitWhereSite | trait-fuzzer/mutation/mutation-AST/src/mutators/Mutation_2.rs:940-944 | at the target an impl's where clause receives the chosen predicate, which is a where-candidate of the impl; elsewhere it is untouched |
| ConstraintApplier.Applier.VisitImpl | trait-fuzzer/mutation/mutation-AST/src/mutators/Mutation_2.rs:940-946 | an impl's where site, parameters and members are walked in order; the result is the impl injected at the target offset and the chosen predicate is a candidate of that impl |
| ConstraintApplier.Applier.VisitTraitBody | trait-fuzzer/mutation/mutation-AST/src/mutators/Mutation_2.rs:937 | after the supertrait site, the trait's parameters then members are walked |
| ConstraintApplier.Applier.VisitImplBody | trait-fuzzer/mutation/mutation-AST/src/mutators/Mutation_2.rs:945 | after the where site, the impl's parameters then members are walked |
| ConstraintApplier.Applier.VisitItem | trait-fuzzer/mutation/mutation-AST/src/mutators/Mutation_2.rs:929-965 | any item is walked with its sites in collector order; it changes exactly when something was pushed |
| ConstraintApplier.Applier.VisitItems | trait-fuzzer/mutation/mutation-AST/src/mutators/Mutation_2.rs:929-965 | the items are walked in order: the result is the file injected at the target offset and the counter moves by the number of sites |
| ConstraintApplier.Applier.VisitFile | trait-fuzzer/mutation/mutation-AST/src/mutators/Mutation_2.rs:929-965 | `visit_file_mut` on a fresh applier: the file is injected at the target site and nowhere else, and `mutated` holds exactly when the target is a site with something to inject |
| ConstraintApplier.GatParamShiftsApplierCounter | trait-fuzzer/mutation/mutation-AST/src/mutators/Mutation_2.rs:958-964 | on `trait Tr { type A<T>; type B; }` the applier as written numbers 4 sites where the collectors list 3, and its site 2 is the GAT parameter `T` where the collectors' site 2 is `B`'s bound |
| ConstraintMutator.EntriesMembers | trait-fuzzer/mutation/mutation-AST/src/mutators/Mutation_2.rs:707-805 | the flat choice list has one entry per candidate of each site: an entry is in it exactly when its site exists and its local index is below that site's candidate count |
| ConstraintMutator.EntriesOrdered | trait-fuzzer/mutation/mutation-AST/src/mutators/Mutation_2.rs:707-805 | the flat choice list is in visiting order (by site, then by candidate) without repeats |
| ConstraintMutator.WhereCountOpen | trait-fuzzer/mutation/mutation-AST/src/mutators/Mutation_2.rs:735-754 | a where site's candidate count is positive exactly when the impl has a where-candidate |
| ConstraintMutator.SiteCount | trait-fuzzer/mutation/mutation-AST/src/mutators/Mutation_2.rs:707-805 | the count recorded for a site is its number of candidates |
| ConstraintMutator.CollectChoices | trait-fuzzer/mutation/mutation-AST/src/mutators/Mutation_2.rs:707-805 | the collector visits every constraint site in order and records per site its candidate count; the flattened list is the entry list of those counts |
| ConstraintMutator.Collect | trait-fuzzer/mutation/mutation-AST/src/mutators/Mutation_2.rs:61-94 | the site count is 0 exactly when no item of the file has a constraint site |
| ConstraintMutator.Mutate | trait-fuzzer/mutation/mutation-AST/src/mutators/Mutation_2.rs:967-988 | `mutate` injects at site `index` only, and reports a mutation exactly when the file changed, which is exactly when that site has something to inject |
| ConstraintMutator.RunWithMetaAndConstraint | trait-fuzzer/mutation/mutation-AST/src/mutators/Mutation_2.rs:990-1051 | no site: no change and all-zero metadata; an empty or oversized choice space: no change, only the site count reported; otherwise the requested entry (random when missing or out of range) is injected at its site only, the file always changes, and the metadata names that site, the counts and the entry index |
| ProjectionRewrite.Projection | trait-fuzzer/mutation/mutation-AST/src/mutators/Mutation_3.rs:42-55 | the candidate built from a binding is the projection type `<SelfTy as Trait>::Assoc` and records that binding's self type, trait and associated type |
| ProjectionRewrite.CandidatesForMembers | trait-fuzzer/mutation/mutation-AST/src/mutators/Mutation_3.rs:42-55 | the candidates filed under a key are exactly the projections of the bindings whose right-hand side has that token text |
| ProjectionRewrite.BuildReplacementMap | trait-fuzzer/mutation/mutation-AST/src/mutators/Mutation_3.rs:42-55 | the loop over the bindings builds a map holding, under each right-hand-side text, exactly the projections of the bindings with that text |
| ProjectionRewrite.MapHoldsExactlyProjections | trait-fuzzer/mutation/mutation-AST/src/mutators/Mutation_3.rs:42-55 | (key, candidate) is in the map if and only if some binding has right-hand side `key` and projects to that candidate |
| ProjectionRewrite.MapOfProjections | trait-fuzzer/mutation/mutation-AST/src/mutators/Mutation_3.rs:42-55 | every replacement in the map is a projection type |
| ProjectionRewrite.Filtered | trait-fuzzer/mutation/mutation-AST/src/mutators/Mutation_3.rs:316-324 | the filter keeps exactly the candidates that are not the binding being visited (same self type, trait and associated type), and never adds any |
| ProjectionRewrite.ImplCtx | trait-fuzzer/mutation/mutation-AST/src/mutators/Mutation_3.rs:282-299 | a trait impl whose trait and self type are bare identifiers sets them as the context; any other impl keeps the outer context; the associated type is kept |
| ProjectionRewrite.Chosen | trait-fuzzer/mutation/mutation-AST/src/mutators/Mutation_3.rs:325-331 | the replacement is the type of a filtered candidate, not the binding being visited, and, the map holding projections only, a projection that differs from the type it replaces |
| ProjectionRewrite.ItemsSitesCount | trait-fuzzer/mutation/mutation-AST/src/mutators/Mutation_3.rs:116-141 | the per-node site counters used by the rewrite agree with counting, over the file's types in visiting order, those the collector counts |
| ProjectionRewrite.ItemChanged | trait-fuzzer/mutation/mutation-AST/src/mutators/Mutation_3.rs:308-343 | rewriting an item at an offset inside its sites changes it |
| ProjectionRewrite.ItemsChangedIff | trait-fuzzer/mutation/mutation-AST/src/mutators/Mutation_3.rs:308-343 | rewriting a list of items changes it if and only if the offset is one of its sites |
| ProjectionRewrite.AtMostOneItemChanges | trait-fuzzer/mutation/mutation-AST/src/mutators/Mutation_3.rs:308-343 | a rewrite changes at most one item of the file and leaves every other item as it was |
| ProjectionApplier.Applier.constructor | trait-fuzzer/mutation/mutation-AST/src/mutators/Mutation_3.rs:268-279 | a fresh applier: counter 0, not mutated, no impl context, with the given target, map and requested index |
| ProjectionApplier.Applier.VisitSite | trait-fuzzer/mutation/mutation-AST/src/mutators/Mutation_3.rs:308-343 | a path type in the map with a candidate left is a site: at the target it is replaced by the candidate at the requested index modulo the filtered count and the applier is mutated; the counter moves by one exactly at a site; once mutated nothing more is replaced |
| ProjectionApplier.Applier.VisitTy | trait-fuzzer/mutation/mutation-AST/src/mutators/Mutation_3.rs:308-343 | a type and its nested types are visited in preorder: the result is the type rewritten at the target offset and the counter moves by its sites, stopping once past the target |
| ProjectionApplier.Applier.VisitTys | trait-fuzzer/mutation/mutation-AST/src/mutators/Mutation_3.rs:308-343 | a list of types is visited in order, rewritten at the target offset |
| ProjectionApplier.Applier.VisitPreds | trait-fuzzer/mutation/mutation-AST/src/mutators/Mutation_3.rs:308-343 | a where clause's predicates (their bounded types) are visited in order, rewritten at the target offset |
| ProjectionApplier.Applier.VisitSig | trait-fuzzer/mutation/mutation-AST/src/mutators/Mutation_3.rs:308-343 | a function signature's where clause, inputs and output are visited in order, rewritten at the target offset |
| ProjectionApplier.Applier.VisitTraitMembers | trait-fuzzer/mutation/mutation-AST/src/mutators/Mutation_3.rs:308-343 | a trait's members are visited in order, rewritten at the target offset |
| ProjectionApplier.Applier.VisitAssocTypeDef | trait-fuzzer/mutation/mutation-AST/src/mutators/Mutation_3.rs:301-306 | an impl's associated type is visited with itself as the associated-type context, which is restored afterwards |
| ProjectionApplier.Applier.VisitImplMembers | trait-fuzzer/mutation/mutation-AST/src/mutators/Mutation_3.rs:301-306 | an impl's members are visited in order, rewritten at the target offset |
| ProjectionApplier.Applier.VisitImplParts | trait-fuzzer/mutation/mutation-AST/src/mutators/Mutation_3.rs:282-299 | an impl's where clause, trait arguments, self type and members are visited in that order under the impl's context |
| ProjectionApplier.Applier.VisitImpl | trait-fuzzer/mutation/mutation-AST/src/mutators/Mutation_3.rs:282-299 | a trait impl with identifier trait and self type becomes the context while it is visited, and the previous context is restored afterwards |
| ProjectionApplier.Applier.VisitItem | trait-fuzzer/mutation/mutation-AST/src/mutators/Mutation_3.rs:281-343 | any item is visited with its types in visiting order, rewritten at the target offset |
| ProjectionApplier.Applier.VisitItems | trait-fuzzer/mutation/mutation-AST/src/mutators/Mutation_3.rs:281-343 | the items are visited in order: the result is the file rewritten at the target offset and the counter stops just past the target |
| ProjectionApplier.Applier.VisitFile | trait-fuzzer/mutation/mutation-AST/src/mutators/Mutation_3.rs:281-343 | `visit_file_mut` on a fresh applier rewrites the file at the target site, and `mutated` holds exactly when the target is one of the file's sites |
| ProjectionMutator.SortedBindingOf | trait-fuzzer/mutation/mutation-AST/src/mutators/Mutation_3.rs:42-55 | a binding of the file has one with the same right-hand side and the same projection among the sorted, de-duplicated bindings |
| ProjectionMutator.MapOfSortedBindings | trait-fuzzer/mutation/mutation-AST/src/mutators/Mutation_3.rs:42-55 | the map built from the summary's sorted bindings is the map of the file's bindings |
| ProjectionMutator.MapOfFileEmpty | trait-fuzzer/mutation/mutation-AST/src/mutators/Mutation_3.rs:348-351 | a file's map is empty exactly when the file binds no associated type in an identifier trait impl |
| ProjectionMutator.ReplacementMap | trait-fuzzer/mutation/mutation-AST/src/mutators/Mutation_3.rs:42-55 | the map over the file's summary is the file's map, holds projections only, and is empty exactly when there are no bindings |
| ProjectionMutator.SumCoversSites | trait-fuzzer/mutation/mutation-AST/src/mutators/Mutation_3.rs:215-265 | every site has at least one candidate, so the choice sum is at least the number of sites |
| ProjectionMutator.EntriesCount | trait-fuzzer/mutation/mutation-AST/src/mutators/Mutation_3.rs:465-494 | the flat choice list has exactly as many entries as the choice sum |
| ProjectionMutator.EntriesInRange | trait-fuzzer/mutation/mutation-AST/src/mutators/Mutation_3.rs:465-494 | every entry names one of the sites and a candidate within that site's count |
| ProjectionMutator.EntriesOrdered | trait-fuzzer/mutation/mutation-AST/src/mutators/Mutation_3.rs:465-494 | the entries come in visiting order, each (site, candidate) pair once |
| ProjectionMutator.EntriesCoverSites | trait-fuzzer/mutation/mutation-AST/src/mutators/Mutation_3.rs:465-494 | with a site there is a choice: the list has at least as many entries as there are sites |
| ProjectionMutator.NothingWithoutMap | trait-fuzzer/mutation/mutation-AST/src/mutators/Mutation_3.rs:348-351 | an empty map gives no sites, a zero sum and no entries |
| ProjectionMutator.FileSites | trait-fuzzer/mutation/mutation-AST/src/mutators/Mutation_3.rs:116-141 | the applier's site numbering over the file, whatever its draw, counts the same sites as the collectors |
| ProjectionMutator.CountSites | trait-fuzzer/mutation/mutation-AST/src/mutators/Mutation_3.rs:116-141 | the collector's loop over the file's types counts exactly the sites |
| ProjectionMutator.Metrics | trait-fuzzer/mutation/mutation-AST/src/mutators/Mutation_3.rs:242-265 | the choice collector's loop yields the number of sites and the choice sum, the sum covering the sites |
| ProjectionMutator.ChoiceEntries | trait-fuzzer/mutation/mutation-AST/src/mutators/Mutation_3.rs:465-494 | the entry collector's loop yields exactly the flat choice list |
| ProjectionMutator.Collect | trait-fuzzer/mutation/mutation-AST/src/mutators/Mutation_3.rs:346-361 | `collect` returns the number of rewrite sites of the file, 0 when the file binds no associated type |
| ProjectionMutator.ProjectionChoiceMetrics | trait-fuzzer/mutation/mutation-AST/src/mutators/Mutation_3.rs:387-402 | `projection_choice_metrics`: the file's sites and choice sum, the sum covering the sites, zeros without a map |
| ProjectionMutator.CollectChoiceEntries | trait-fuzzer/mutation/mutation-AST/src/mutators/Mutation_3.rs:422-507 | `collect_choice_entries`: the flat choice list of the file, as long as the choice sum, empty without a map |
| ProjectionMutator.Mutate | trait-fuzzer/mutation/mutation-AST/src/mutators/Mutation_3.rs:363-384 | `mutate` rewrites the file at site `index`, reports a mutation exactly when the file changed, which is exactly when `index` is below the site count, and changes at most one item |
| ProjectionMutator.RunWithMetaAndChoice | trait-fuzzer/mutation/mutation-AST/src/mutators/Mutation_3.rs:509-555 | no site: no change and all-zero metadata; no choice: no change; otherwise the requested entry (random when missing or out of range) is rewritten at its site with its candidate, the file always changes, in one item only, and the metadata names that site, the counts and the entry index |
| ProjectionMutator.EveryMatchMissesSite | trait-fuzzer/mutation/mutation-AST/src/mutators/Mutation_3.rs:337 | with the counter advanced at every map match, as written, the collectors' only site of `impl Tr for S { type A = u32; } fn f(_: u32) {}` is never rewritten, while the open-site numbering rewrites it |
| AddItems.PickTraitName | trait-fuzzer/mutation/mutation-AST/src/mutators/Mutation_1.rs:34-45 | the name search returns the first of `NewTrait`, `NewTrait1` … `NewTrait255` not already used, and nothing exactly when all 256 are used |
| AddItems.SelectPattern | trait-fuzzer/mutation/mutation-AST/src/mutators/Mutation_1.rs:51-57 | a forced pattern 0 to 3 is used as given; any other value, or none, draws one of the five |
| AddItems.AddTraitMutate | trait-fuzzer/mutation/mutation-AST/src/mutators/Mutation_1.rs:23-62 | `AddTraitMutator::mutate` fails, leaving the file alone, exactly when all 256 names clash with the file's traits and types; otherwise it appends one trait, built from a pattern (the forced one when forced), under a name the file does not use, and keeps every earlier item |
| AddItems.ExtractGenericParams | trait-fuzzer/mutation/mutation-AST/src/mutators/Mutation_1.rs:78-87 | the parameters are kept exactly when none is a lifetime |
| AddItems.UniquifyIdent | trait-fuzzer/mutation/mutation-AST/src/mutators/Mutation_1.rs:89-103 | an unused base name is kept; otherwise the first unused `base_i` (i < 128) is taken and recorded; the name is `G`, recorded nowhere, exactly when the base and all 128 suffixed names are taken |
| AddItems.InstantiateParams | trait-fuzzer/mutation/mutation-AST/src/mutators/Mutation_1.rs:182-236 | each trait or type parameter gets one argument: a const gets a literal in [1, 1024), a type gets a file type or a new unbounded impl parameter, which is appended to the impl's parameters |
| AddItems.FindTrait | trait-fuzzer/mutation/mutation-AST/src/mutators/Mutation_1.rs:149-153 | the result is the first trait of the file with the drawn name, and none exactly when the file has no such trait |
| AddItems.FindTypeGenerics | trait-fuzzer/mutation/mutation-AST/src/mutators/Mutation_1.rs:155-161 | the result is the generics of the first struct or enum of the file with the drawn name, and none exactly when the file has no such type |
| AddItems.BuildHeader | trait-fuzzer/mutation/mutation-AST/src/mutators/Mutation_1.rs:170-261 | the impl header for a trait and a type of the file: new unbounded type parameters of its own, and an argument fit for every parameter of the trait and of the type (a file type or one of those parameters for a type parameter, a literal in [1, 1024) for a const one) |
| AddItems.TryImpl | trait-fuzzer/mutation/mutation-AST/src/mutators/Mutation_1.rs:135-266 | an attempt yields nothing exactly when the edge exists, the trait or the type is missing from the file, or either has a lifetime parameter; otherwise the impl of that trait for that type, with the header of `BuildHeader` and, when the trait has required items, the members `make_impl_items_for_trait` generates (else none) |
| AddItems.AddImplMutate | trait-fuzzer/mutation/mutation-AST/src/mutators/Mutation_1.rs:123-270 | `AddImplMutator::mutate` fails when the file has no trait or no type; on failure the file is unchanged, on success exactly one new impl (`NewImpl`: header and members as `TryImpl`) is appended and every earlier item kept |
| TraitPattern.PatternOfIndex | trait-fuzzer/mutation/mutation-AST/src/mutators/trait_pattern.rs:16-25 | the five draws and the five patterns correspond one to one |
| TraitPattern.ChoosePattern | trait-fuzzer/mutation/mutation-AST/src/mutators/trait_pattern.rs:16-25 | `choose_pattern` returns one of the five patterns |
| TraitPattern.BuildTrait | trait-fuzzer/mutation/mutation-AST/src/mutators/trait_pattern.rs:27-41 | `build_trait` gives a trait of the requested name with no supertraits and the pattern's members; only the const-generic pattern has a generic parameter |
| TraitPattern.InferPattern | trait-fuzzer/mutation/mutation-AST/src/mutators/trait_pattern.rs:43-73 | the flag loop of `infer_pattern` gives: a const means assoc-type-and-const, else a generic associated type means GAT, else any associated type means assoc-type, else basic; never const-generic |
| TraitPattern.InferBuiltPattern | trait-fuzzer/mutation/mutation-AST/src/mutators/trait_pattern.rs:27-73 | inferring the pattern of a built trait recovers the pattern, except that a const-generic trait reads as basic |
| TraitPattern.GenerateConstValue | trait-fuzzer/mutation/mutation-AST/src/mutators/trait_pattern.rs:178-208 | `generate_const_value` as written: a bool literal for bool, one of eight characters for char, a literal in [0, 1000) for unsigned names, in [-1000, 1000) for signed names, `0` otherwise |
| TraitPattern.GeneratedValueOverflows | trait-fuzzer/mutation/mutation-AST/src/mutators/trait_pattern.rs:192-205 | the literals 999 for `u8` and -1000 for `i8` can be generated and do not fit their types |
| TraitPattern.GenerateFittingConstValue | trait-fuzzer/mutation/mutation-AST/src/mutators/trait_pattern.rs:178-208 | the corrected generator: every value has the shape above and an integer literal fits its type |
| TraitPattern.BaseNameOfRhs | trait-fuzzer/mutation/mutation-AST/src/mutators/trait_pattern.rs:137-141 | the right-hand side keeps the chosen base type, behind `&'lt` for a lifetime-generic associated type |
| TraitPattern.MakeImplItems | trait-fuzzer/mutation/mutation-AST/src/mutators/trait_pattern.rs:75-176 | `make_impl_items_for_trait` gives one impl member per required trait member, in order: an associated type bound to a type from the pool (primitives when the trait has a const, else the file's types and `i32`), a const whose value `generate_const_value` draws for the base type last chosen (`0` when none; an integer literal need not fit its type), a method with an `unimplemented!()` body |
| TraitPattern.MakeImplItem | trait-fuzzer/mutation/mutation-AST/src/mutators/trait_pattern.rs:103-172 | one loop step: an impl member exactly for a required trait member, implementing it |
| FnSites.MethodSitesMember | trait-fuzzer/mutation/mutation-AST/src/mutators/Mutation_5.rs:33-39 | the methods listed for an impl are exactly its method members, by position |
| FnSites.ItemFnSitesMember | trait-fuzzer/mutation/mutation-AST/src/mutators/Mutation_5.rs:17-39 | the functions listed for an item are exactly its eligible ones: a free function, or a method of an inherent impl (a trait impl's methods are skipped) |
| FnSites.FnSitesUpToMember | trait-fuzzer/mutation/mutation-AST/src/mutators/Mutation_5.rs:17-39 | the functions listed for the first `k` items are exactly the eligible functions among them |
| FnSites.FnSitesExactly | trait-fuzzer/mutation/mutation-AST/src/mutators/Mutation_5.rs:17-39 | the collector's function list holds exactly the file's eligible functions |
| FnSites.FnSitesPrefix | trait-fuzzer/mutation/mutation-AST/src/mutators/Mutation_5.rs:17-39 | the list for a prefix of the items is contained in the whole list |
| FnSites.WithSig | trait-fuzzer/mutation/mutation-AST/src/mutators/Mutation_5.rs:230-258 | replacing one eligible function's signature changes that item only and puts the new signature there |
| FnSites.WithSigRestores | trait-fuzzer/mutation/mutation-AST/src/mutators/Mutation_5.rs:230-258 | putting the old signature back restores the file |
| FnSites.WithLifetime | trait-fuzzer/mutation/mutation-AST/src/mutators/Mutation_4.rs:72-109 | an argument given a lifetime borrows for exactly it and keeps its referent: `self` becomes `&'lt self` keeping its mutability, a reference gets the lifetime, a value type becomes `&'lt T` |
| LifetimeObfuscation.ArgRange | trait-fuzzer/mutation/mutation-AST/src/mutators/Mutation_4.rs:28-30 | a function contributes one site per argument |
| LifetimeObfuscation.ArgRangeMember | trait-fuzzer/mutation/mutation-AST/src/mutators/Mutation_4.rs:28-38 | a function's sites are exactly its argument positions |
| LifetimeObfuscation.MethodArgSitesMember | trait-fuzzer/mutation/mutation-AST/src/mutators/Mutation_4.rs:34-41 | an impl's sites are exactly the arguments of its methods |
| LifetimeObfuscation.ItemArgSitesMember | trait-fuzzer/mutation/mutation-AST/src/mutators/Mutation_4.rs:16-41 | an item's sites are exactly the arguments of its eligible functions |
| LifetimeObfuscation.ArgSitesUpToMember | trait-fuzzer/mutation/mutation-AST/src/mutators/Mutation_4.rs:16-41 | the sites of the first `k` items are exactly the arguments of eligible functions among them |
| LifetimeObfuscation.ArgSitesExactly | trait-fuzzer/mutation/mutation-AST/src/mutators/Mutation_4.rs:16-41 | the collector's site list holds exactly the arguments of the file's eligible functions |
| LifetimeObfuscation.MutateArg | trait-fuzzer/mutation/mutation-AST/src/mutators/Mutation_4.rs:54-110 | `try_mutate_arg`: only the chosen argument changes, and it then borrows for the signature's first lifetime, or for a new `'mut_lt` inserted first when there is none; name, output and where clause are kept |
| LifetimeObfuscation.AppliedChangesOneArgument | trait-fuzzer/mutation/mutation-AST/src/mutators/Mutation_4.rs:123-153 | a mutation changes one eligible function's signature only, and the changed argument then borrows for a lifetime that signature declares |
| LifetimeObfuscation.Collect | trait-fuzzer/mutation/mutation-AST/src/mutators/Mutation_4.rs:157-164 | `collect` counts one site per argument of every free function and inherent-impl method |
| LifetimeObfuscation.CountMethodArgs | trait-fuzzer/mutation/mutation-AST/src/mutators/Mutation_4.rs:34-41 | the loop over an impl's methods counts their arguments |
| LifetimeObfuscation.FindInMethods | trait-fuzzer/mutation/mutation-AST/src/mutators/Mutation_4.rs:139-153 | walking an impl's methods either passes all their arguments, staying at or below the target, or stops at the argument the target falls on |
| LifetimeObfuscation.VisitItem | trait-fuzzer/mutation/mutation-AST/src/mutators/Mutation_4.rs:113-153 | visiting one item either passes all its sites or finds the site the target falls on, in the collector's order |
| LifetimeObfuscation.Apply | trait-fuzzer/mutation/mutation-AST/src/mutators/Mutation_4.rs:166-175 | `mutate` reports a mutation exactly when the index is below the count, and the result is the file with that site rewritten |
| LifetimeObfuscation.Run | trait-fuzzer/mutation/mutation-AST/src/mutators/framework.rs:13-26 | driven by `run`: no site leaves the file unchanged and unmutated; otherwise the file is mutated at some site below the count |
| LifetimeOutlive.FirstWhere | trait-fuzzer/mutation/mutation-AST/src/mutators/Mutation_5.rs:109-124 | the first argument position satisfying the test, none exactly when no argument does |
| LifetimeOutlive.UniqueLifetimeName | trait-fuzzer/mutation/mutation-AST/src/mutators/Mutation_5.rs:198-217 | `generate_unique_lifetime_name`: the base when unused, else `base_k` for the least `k >= 1` not declared; the result is never declared already |
| LifetimeOutlive.AddOutliveKeepsNames | trait-fuzzer/mutation/mutation-AST/src/mutators/Mutation_5.rs:85-95 | adding a bound declares no new lifetime |
| LifetimeOutlive.AddOutliveRecords | trait-fuzzer/mutation/mutation-AST/src/mutators/Mutation_5.rs:85-95 | after adding `'b: 'a`, the parameter `'b` lists `'a` among its bounds |
| LifetimeOutlive.AddOutliveDistinct | trait-fuzzer/mutation/mutation-AST/src/mutators/Mutation_5.rs:89-91 | a bound already present is not added twice |
| LifetimeOutlive.PushOutlive | trait-fuzzer/mutation/mutation-AST/src/mutators/Mutation_5.rs:85-95 | the loop over the parameters adds `'a` to the first parameter named `'b` |
| LifetimeOutlive.WrapFirstValueArg | trait-fuzzer/mutation/mutation-AST/src/mutators/Mutation_5.rs:109-124 | the first by-value typed argument becomes `&'new T`, the rest stay |
| LifetimeOutlive.ConvertedLeading | trait-fuzzer/mutation/mutation-AST/src/mutators/Mutation_5.rs:138-192 | the first argument borrows for `'a`, the second for `'b`, the rest are unchanged |
| LifetimeOutlive.ConvertLeading | trait-fuzzer/mutation/mutation-AST/src/mutators/Mutation_5.rs:138-192 | the conversion loop stops after two arguments and gives exactly that |
| LifetimeOutlive.AddOutliveConstraint | trait-fuzzer/mutation/mutation-AST/src/mutators/Mutation_5.rs:66-195 | `add_outlive_constraint` takes one of three cases by the number of lifetime parameters (two or more, one, none) and its result is as that case describes |
| LifetimeOutlive.OutliveDeclared | trait-fuzzer/mutation/mutation-AST/src/mutators/Mutation_5.rs:66-195 | in every case the signature ends with a lifetime parameter bounded by a lifetime it declares |
| LifetimeOutlive.ReachedWithoutChange | trait-fuzzer/mutation/mutation-AST/src/mutators/Mutation_5.rs:85-238 | with `'a: 'b` and `'b: 'a` already declared, the outlives step leaves the signature as it was although the site is reported mutated |
| LifetimeOutlive.Collect | trait-fuzzer/mutation/mutation-AST/src/mutators/Mutation_5.rs:262-269 | `collect` counts the free functions and the inherent-impl methods |
| LifetimeOutlive.CountMethods | trait-fuzzer/mutation/mutation-AST/src/mutators/Mutation_5.rs:33-39 | the loop over an impl's members counts its methods |
| LifetimeOutlive.VisitItem | trait-fuzzer/mutation/mutation-AST/src/mutators/Mutation_5.rs:220-258 | visiting one item either passes all its functions or finds the one numbered `target` |
| LifetimeOutlive.Apply | trait-fuzzer/mutation/mutation-AST/src/mutators/Mutation_5.rs:271-280 | `mutate` mutates exactly when the index is below the count; then only the function the collector listed at that index changes, and it gains an outlives relation |
| LifetimeOutlive.Run | trait-fuzzer/mutation/mutation-AST/src/mutators/framework.rs:13-26 | driven by `run`: no function leaves the file unchanged and unmutated; otherwise exactly one eligible signature gains an outlives relation |
| NonStructural.OtherKinds | trait-fuzzer/mutation/mutation-AST/src/mutators/non_structural.rs:41-44 | the operators kept are exactly those of the list that differ from the current one |
| NonStructural.RandomBinOp | trait-fuzzer/mutation/mutation-AST/src/mutators/non_structural.rs:25-49 | `get_random_bin_op` returns a supported operator different from the current one; the fallback is never needed |
| NonStructural.WrappingInc | trait-fuzzer/mutation/mutation-AST/src/mutators/non_structural.rs:106-108 | `wrapping_add(1)` on an `i64` stays in range and changes the value |
| NonStructural.WrappingIncModular | trait-fuzzer/mutation/mutation-AST/src/mutators/non_structural.rs:106-108 | the increment is `v + 1` modulo 2^64, and exactly `v + 1` below the maximum |
| NonStructural.Replace | trait-fuzzer/mutation/mutation-AST/src/mutators/non_structural.rs:63-196 | the edit at a site: another supported operator over the same operands; the literal plus one (a literal that does not parse as `i64` is left alone); the negated boolean; the constant `0`; every edit but the unparsable literal changes the expression |
| NonStructural.Applier.constructor | trait-fuzzer/mutation/mutation-AST/src/mutators/non_structural.rs:61-224 | a fresh applier: the target and the kind, counter 0, not mutated |
| NonStructural.Applier.VisitExpr | trait-fuzzer/mutation/mutation-AST/src/mutators/non_structural.rs:62-197 | visiting an expression in preorder: the result is the expression rewritten at the target offset, the counter advances by its sites (`ReplaceByConstant` does not visit the replaced children), and `mutated` records whether anything changed |
| NonStructural.Applier.VisitBlock | trait-fuzzer/mutation/mutation-AST/src/mutators/non_structural.rs:225-235 | visiting a block: `let _injected = 0;` is inserted in front when the block is the target, then its statements are visited |
| NonStructural.Applier.VisitStmts | trait-fuzzer/mutation/mutation-AST/src/mutators/non_structural.rs:225-235 | a block's statements are visited in order, rewritten at the target offset |
| NonStructural.Applier.VisitTraitMembers | trait-fuzzer/mutation/mutation-AST/src/mutators/non_structural.rs:62-73 | a trait's members (default method bodies) are visited in order |
| NonStructural.Applier.VisitImplMembers | trait-fuzzer/mutation/mutation-AST/src/mutators/non_structural.rs:62-73 | an impl's members are visited in order |
| NonStructural.Applier.VisitItem | trait-fuzzer/mutation/mutation-AST/src/mutators/non_structural.rs:62-73 | an item is visited with its expressions and blocks in visiting order |
| NonStructural.Applier.VisitItems | trait-fuzzer/mutation/mutation-AST/src/mutators/non_structural.rs:81-247 | the items are visited in order: the result is the file rewritten at the target offset and `mutated` records whether the file changed |
| NonStructural.Collector.VisitExpr | trait-fuzzer/mutation/mutation-AST/src/mutators/non_structural.rs:51-183 | the collector's visit counts an expression's sites, children included |
| NonStructural.Collector.VisitItems | trait-fuzzer/mutation/mutation-AST/src/mutators/non_structural.rs:76-242 | the collector over the items counts all the file's sites of the kind |
| NonStructural.CollectSites | trait-fuzzer/mutation/mutation-AST/src/mutators/non_structural.rs:76-242 | `collect` counts the file's sites in visiting order; for the block injection it counts every block, nested ones included (the corrected collector) |
| NonStructural.Mutate | trait-fuzzer/mutation/mutation-AST/src/mutators/non_structural.rs:81-247 | `mutate` rewrites the file at site `index`; it reports a mutation exactly when the file changed, only for an index below the count, and for every kind but the literal change exactly then; at most one item changes |
| NonStructural.ItemsChangedIff | trait-fuzzer/mutation/mutation-AST/src/mutators/non_structural.rs:62-235 | apart from the literal change, the rewrite changes the file exactly when the target is one of its sites |
| NonStructural.AtMostOneItemChanges | trait-fuzzer/mutation/mutation-AST/src/mutators/non_structural.rs:62-235 | the rewrite changes at most one item |
| NonStructural.InjectCountMissesBlock | trait-fuzzer/mutation/mutation-AST/src/mutators/non_structural.rs:217-235 | the block collector as written does not descend into blocks: on a file with a nested block it counts 2 where the applier sees 3 sites, and the last block is reachable only at index 2, which `run` never draws |
| StructuralItems.FirstFreeAssoc | trait-fuzzer/mutation/mutation-AST/src/mutators/structural.rs:39-51 | the first of `Assoc`, `Assoc1` … `Assoc255` from position `i` on that the trait does not use, none exactly when all are used |
| StructuralItems.PickAssocName | trait-fuzzer/mutation/mutation-AST/src/mutators/structural.rs:39-51 | the name loop returns the first unused candidate |
| StructuralItems.WithAssoc | trait-fuzzer/mutation/mutation-AST/src/mutators/structural.rs:30-64 | the trait keeps its name, generics and supertraits; it is unchanged exactly when all 256 names are taken, otherwise it gains `type N = i32;` at the end under a name it does not use |
| StructuralItems.AssocRewriteAt | trait-fuzzer/mutation/mutation-AST/src/mutators/structural.rs:28-68 | only the trait numbered `l` among the traits is rewritten |
| StructuralItems.AssocCollector.VisitItems | trait-fuzzer/mutation/mutation-AST/src/mutators/structural.rs:21-26 | the collector counts the file's traits |
| StructuralItems.AssocApplier.constructor | trait-fuzzer/mutation/mutation-AST/src/mutators/structural.rs:77 | a fresh applier: the target, counter 0, not mutated |
| StructuralItems.AssocApplier.VisitTrait | trait-fuzzer/mutation/mutation-AST/src/mutators/structural.rs:30-67 | a trait is rewritten exactly when the counter is at the target, and the counter moves by one either way |
| StructuralItems.AssocApplier.VisitItems | trait-fuzzer/mutation/mutation-AST/src/mutators/structural.rs:28-68 | the items are visited in order: the file rewritten at the trait numbered by the target, the counter moved by the number of traits |
| StructuralItems.CollectAssocSites | trait-fuzzer/mutation/mutation-AST/src/mutators/structural.rs:71-75 | `collect` counts the file's traits |
| StructuralItems.AddAssocTypeMutate | trait-fuzzer/mutation/mutation-AST/src/mutators/structural.rs:76-80 | `mutate` rewrites the trait numbered `index` and reports a mutation exactly when the file changed, which is exactly when that trait exists and has a free name |
| StructuralItems.AssocChangedIff | trait-fuzzer/mutation/mutation-AST/src/mutators/structural.rs:28-68 | the rewrite changes the file exactly when the numbered trait exists and has a free name |
| StructuralItems.TraitAtIndex | trait-fuzzer/mutation/mutation-AST/src/mutators/structural.rs:28-68 | the trait numbered `l` is at one position only |
| StructuralItems.AddTraitMutate | trait-fuzzer/mutation/mutation-AST/src/mutators/structural.rs:92-132 | this `AddTraitMutator` fails, leaving the file alone, exactly when all 256 `NewTrait` names clash; otherwise it appends an empty trait under a free name, either plain or with one type parameter `T` |
| StructuralItems.OnlyTypeParams | trait-fuzzer/mutation/mutation-AST/src/mutators/structural.rs:145-154 | the parameters are kept exactly when they are all type parameters |
| StructuralItems.MakeImplItems | trait-fuzzer/mutation/mutation-AST/src/mutators/structural.rs:181-206 | one impl member per required associated type (bound to the file's first type, or `i32`) or required method (`unimplemented!()` body), in order, and nothing else |
| StructuralItems.TryImpl | trait-fuzzer/mutation/mutation-AST/src/mutators/structural.rs:232-335 | an attempt yields nothing for an existing edge; what it yields is an impl of a trait of the file for a type of the file, both with type parameters only, with the header of `AddItems.BuildHeader` and the generated members exactly when the trait has a required method or associated type |
| StructuralItems.AddImplMutate | trait-fuzzer/mutation/mutation-AST/src/mutators/structural.rs:214-339 | this `AddImplMutator` fails on a file without traits or types; on failure the file is unchanged, on success one such impl is appended and every earlier item kept |
| StructuralInjection.Unexcluded | trait-fuzzer/mutation/mutation-AST/src/mutators/structural.rs:398-404 | the candidates are exactly the file's traits that are not excluded |
| StructuralInjection.ChooseTrait | trait-fuzzer/mutation/mutation-AST/src/mutators/structural.rs:395-410 | `choose_trait_prefer_custom` returns a file trait that is not excluded whenever there is one, and `Copy` only when every file trait is excluded |
| StructuralInjection.ChooseTraitCovers | trait-fuzzer/mutation/mutation-AST/src/mutators/structural.rs:406-409 | every admissible file trait is returned for some draw |
| StructuralInjection.BindingsFor | trait-fuzzer/mutation/mutation-AST/src/mutators/structural.rs:491-497 | the bindings kept are exactly those for the given self type |
| StructuralInjection.ImplementorsOf | trait-fuzzer/mutation/mutation-AST/src/mutators/structural.rs:528-534 | the types kept are exactly those with an impl edge to the trait |
| StructuralInjection.TraitsOf | trait-fuzzer/mutation/mutation-AST/src/mutators/structural.rs:456-462 | the traits kept are exactly those the type has an impl edge to |
| StructuralInjection.EdgesAvoiding | trait-fuzzer/mutation/mutation-AST/src/mutators/structural.rs:573-579 | the edges kept are exactly those whose type is not the impl's self type |
| StructuralInjection.ProjectionPredicateOrigin | trait-fuzzer/mutation/mutation-AST/src/mutators/structural.rs:483-539 | `choose_projection_where_predicate`: with any binding it yields a projection from a binding, preferring the self type's own bindings; without bindings what it yields comes from a declared associated type and an implementing type |
| StructuralInjection.GenericsPredicateOrigin | trait-fuzzer/mutation/mutation-AST/src/mutators/structural.rs:439-481 | `choose_where_predicate_for_generics` yields a predicate on a local type parameter, the self type, an existing edge or the first file type, and nothing only when there is no self type, no edge and no type |
| StructuralInjection.ImplWherePredicateOrigin | trait-fuzzer/mutation/mutation-AST/src/mutators/structural.rs:541-588 | `choose_impl_where_predicate`: every predicate it yields has one of the documented origins; without the projection coin a local type parameter is always used when there is one; with it and any binding a binding projection is used; it yields nothing only when the impl has no type parameter or self identifier and the file no edges or types |
| StructuralInjection.InjectBounds | trait-fuzzer/mutation/mutation-AST/src/mutators/structural.rs:590-665 | pushing a trait bound: afterwards the bound is present, earlier bounds are kept in front, the list changes exactly when the bound was missing, and it stays free of duplicates |
| StructuralInjection.InjectWhere | trait-fuzzer/mutation/mutation-AST/src/mutators/structural.rs:621-637 | pushing a where-predicate keeps the parameters and the earlier predicates, the predicate is then present, and the clause changes exactly when the predicate was new |
| StructuralInjection.PlanOf | trait-fuzzer/mutation/mutation-AST/src/mutators/structural.rs:395-588 | the choices for a set of draws: every trait chosen is admissible |
| StructuralInjection.ItemsChangedIff | trait-fuzzer/mutation/mutation-AST/src/mutators/structural.rs:605-666 | the injection changes the file exactly when the target is one of its sites and the drawn constraint is not already there |
| StructuralInjection.Collector.VisitItems | trait-fuzzer/mutation/mutation-AST/src/mutators/structural.rs:356-381 | the collector counts the file's traits, impls, type parameters and trait associated types |
| StructuralInjection.CollectSites | trait-fuzzer/mutation/mutation-AST/src/mutators/structural.rs:669-673 | `collect` returns the number of sites |
| StructuralInjection.Applier.constructor | trait-fuzzer/mutation/mutation-AST/src/mutators/structural.rs:677-682 | a fresh applier: target and draws, counter 0, not mutated |
| StructuralInjection.Applier.PushBound | trait-fuzzer/mutation/mutation-AST/src/mutators/structural.rs:639-665 | at the target the drawn trait is pushed unless present; the counter moves by one |
| StructuralInjection.Applier.VisitParams | trait-fuzzer/mutation/mutation-AST/src/mutators/structural.rs:639-652 | a parameter list is visited in order, rewritten at the target offset |
| StructuralInjection.Applier.VisitTraitMembers | trait-fuzzer/mutation/mutation-AST/src/mutators/structural.rs:654-665 | a trait's members are visited in order, rewritten at the target offset |
| StructuralInjection.Applier.VisitTrait | trait-fuzzer/mutation/mutation-AST/src/mutators/structural.rs:606-619 | a trait's supertrait site, then its parameters and members, rewritten at the target offset |
| StructuralInjection.Applier.VisitImpl | trait-fuzzer/mutation/mutation-AST/src/mutators/structural.rs:621-637 | an impl's where site, then its parameters and members, rewritten at the target offset |
| StructuralInjection.Applier.VisitItems | trait-fuzzer/mutation/mutation-AST/src/mutators/structural.rs:605-666 | the items are visited in order: the file injected at the target, the counter moved by the file's sites, `mutated` exactly when the file changed |
| StructuralInjection.Mutate | trait-fuzzer/mutation/mutation-AST/src/mutators/structural.rs:675-685 | `mutate` builds the TTDN summary of the file, injects at site `index` with the drawn choices, and reports a mutation exactly when the file changed, which is exactly when the index is a site and the drawn constraint is new there |
| Framework.Run | trait-fuzzer/mutation/mutation-AST/src/mutators/framework.rs:13-26 | `run`: no mutation point leaves the file unchanged and unmutated; otherwise the result is `mutate` at some index below the count |
| ChoiceLine.StatusLine | trait-fuzzer/mutation/mutation-AST/src/main.rs:181-185 | the status line is "Mutation successful." exactly when mutated and "No mutation performed." exactly when not |
| ChoiceLine.DigitRun | trait-fuzzer/main.py:1517-1520 | the `\d+` group: the longest prefix of digits |
| ChoiceLine.WordRun | trait-fuzzer/main.py:1517-1520 | the `\S+` group: the longest prefix without whitespace |
| ChoiceLine.FieldsRoundTrip | trait-fuzzer/main.py:1517-1520 | reading the numeric fields back from what was written recovers every value and leaves the rest of the line |
| ChoiceLine.ChoiceSuffixRoundTrip | trait-fuzzer/main.py:1530-1550 | the `choice_count`/`choice_index` pair is read back exactly for the two modes that write it, and not found for the others |
| ChoiceLine.ChoiceLineRoundTrip | trait-fuzzer/mutation/mutation-AST/src/main.rs:148-179 | the driver reads back from every `MUTATION_CHOICE` line the tool writes the mode, count, index and mutated flag, and the choice pair exactly for `constraint_injection` and `projection_rewrite` |
| ToolMain.StatusLinesAppend | trait-fuzzer/mutation/mutation-AST/src/main.rs:181-185 | status lines in a log add up over concatenation |
| ToolMain.OneStatusLine | trait-fuzzer/mutation/mutation-AST/src/main.rs:148-200 | a mutation run's stderr carries exactly one status line, which says whether the file was mutated |
| ToolMain.ChoiceLineReadsBack | trait-fuzzer/mutation/mutation-AST/src/main.rs:148-179 | with `--emit-choice`, the driver reads back from the tool's stderr exactly the mode, counts, indexes and mutated flag of the run |
| ToolMain.StructuralRun | trait-fuzzer/mutation/mutation-AST/src/main.rs:121-128 | the add-trait and add-impl arms: one mutation point at index 0, no choice pair, mutated exactly when an item was appended, and the appended item is a fresh trait or a new impl |
| ToolMain.ConstraintRun | trait-fuzzer/mutation/mutation-AST/src/main.rs:131-135 | the constraint-injection arm: the site count is the file's constraint-site count; a mutation lies within the counts and uses the entry asked for (`--constraint-index`, else `--index`) when it is in range; mutated means changed |
| ToolMain.ProjectionRun | trait-fuzzer/mutation/mutation-AST/src/main.rs:136-140 | the projection-rewrite arm: a mutation lies within the counts and uses the entry asked for (`--choice-index`, else `--index`) when it is in range; mutated means changed |
| ToolMain.Dispatch | trait-fuzzer/mutation/mutation-AST/src/main.rs:119-146 | the mode match: the four mutation modes run their mutator; any other mode reports "Unknown mode", leaves the file alone and gives all-zero metadata |
| ToolMain.RunTool | trait-fuzzer/mutation/mutation-AST/src/main.rs:45-203 | `main`: a parse failure writes the input back with the two failure lines; `ttdn_metrics` writes the input back and reports the TTDN counts and both choice metrics; the debug modes write the input back; every other mode writes the printed tree, logs exactly one status line, and the tree differs from the parsed file exactly when mutated |

## Left out

- Processes, files and clocks are inputs. The model does not capture:
  - running `rustc` and the mutation tool (a `ProcessOutcome` or the tool's stderr is a parameter);
  - the directory listings and file sizes (a `Disk` value), and the current time;
  - signals, the file lock (`SimpleFileLock`), the thread pool, logging, `detail.log`, and reading the configuration file.
- Every random draw is a parameter or a nondeterministic `:|` choice. This covers `random.choice`, `random.randrange`, `random.random` against a probability, the weighted strategy picks, and `rng.gen_range` in the Rust tool. Contracts therefore hold for every possible draw; probability distributions are not modelled.
- `MutatorPool.NewPool`: the configured weights are kept as reals. The weighted draw itself is a nondeterministic pick among the strategies that can come out, so the odds are not modelled.
- `Retention.EnforceResultsLimits`: the limits `max_results_gb` and `min_free_gb` (floats of gigabytes in the configuration) are whole numbers of bytes. The conversion and its rounding are not modelled, and disk usage and free space are inputs.
- `Text.Lower` folds ASCII letters only. Python's `str.lower()` (utils/compiler/interface.py:55) also folds non-ASCII letters. The crash markers looked for are ASCII, but a non-ASCII upper-case spelling of them in stderr would be detected by the source and not by `CompilerInterface.IsIce`.
- `Deduplicator.SignatureOf`: the group key is the normalised stderr text itself, not its MD5 digest. Distinct texts whose MD5 digests collide would share a group in the source, and they do not share one here.
- `RoundController.RoundState.IsDuplicate`: the same choice applies to the SHA-256 digest of a mutant. Mutants are remembered by their text, so a hash collision, which would make the source report a false duplicate, is not modelled.
- Parsing and printing Rust (syn, quote, prettyplease) are not part of this model. Files are an abstract syntax tree (`Syntax.File`), token-stream comparison is tree equality, and the printed output is the tree.
- The order in which a `HashSet` is iterated is left open. Where that order decides a listing, the contracts hold for every order.
- Nested items are left out: inline modules, items inside function bodies and type aliases. The mutators visit them in the source but the abstract file does not have them.
- The mutation tool's debug modes (`constraint_debug`, `constraint_debug_pretty` and `projection_debug_pretty`) write their input back. The listings they print are not modelled.
- The LLM pieces are not part of this model:
  - the `llm_injection` strategy's agents, the connector and prompt building;
  - apart from `TraitRewriter.CleanReply`, what the model sends and receives.
- Also not part of this model:
  - `clean.py`;
  - `import_rustc_ui` beyond fixture copying;
  - `ttdn_model.py`;
  - the tests;
  - `enforce_seed_file_cap`.
- `ToolMain.StructuralRun`: `main.rs` calls `run_with_meta` on `AddTraitMutator` and `AddImplMutator` (mutation-AST/src/main.rs:122 and 126). No such method is defined in `framework.rs`, which has only `collect`, `mutate` and `run` (framework.rs:5-27). The model gives it the meaning of `Mutation_1`'s single mutation point: one site, index 0, no choice pair, mutated exactly when an item was appended.
- `AddItems.AddTraitMutate`: both Mutation_1 collectors return 1 whatever the file holds (Mutation_1.rs:20-22 and 119-121). The model keeps that, so the count never says whether a trait or an impl can actually be added.
- `ConstraintInjection.WhereCandidates`: `Mutation_2.rs` reads `ttdn.impl_blanket_templates` and `BlanketImplTemplate` (Mutation_2.rs:11 and 547). `ttdn.rs` defines neither. The model builds the TTDN that `ttdn.rs` defines, with no blanket-impl templates, so no candidate comes from a blanket impl.
- `CompilerInterface.Compile`: `main.py` builds `RustCompiler(timeout=…, rustc_cmd=…)` and calls `compile(…, extra_args=[…])` (main.py:915-918 and 1114-1118). `utils/compiler/interface.py:25-29` accepts neither `rustc_cmd` nor `extra_args`, so those calls would raise as written. The model keeps only the classification of a finished, timed-out or failed process. The stable, nightly and next-solver results are independent inputs of the oracle.
- `ToolMain.Dispatch`: `main.rs` dispatches only `add_trait`, `add_impl`, `constraint_injection` and `projection_rewrite` (main.rs:119-146). Every other mode reports "Unknown mode".
  - The driver also plans `lifetime_obfuscation`, `lifetime_outlive`, `add_assoc_type` and the non-structural operators.
  - The models of those mutators (`NonStructural`, `LifetimeObfuscation`, `LifetimeOutlive`, `StructuralItems.AddAssocTypeMutate`) are therefore not reachable from `ToolMain.RunTool`. They are proved on their own, against their own collectors.
- `ProjectionMutator.RunWithMetaAndChoice`: the projection map is built once. The source rebuilds it before its third emptiness check (Mutation_3.rs:509-555), from the same file, so that check cannot fire and the model leaves it out.
- `ConstraintMutator.Collect`: the collectors stop counting at `MAX_CONSTRAINT_SITES` = 5000 sites (Mutation_2.rs:64-90 and 718-780). The model counts every site, so a file with more than 5000 constraint sites gets a larger count here. The cap on the choice space, a hundred times that constant, is modelled.
- `Ttdn.ConstraintChoiceMetricsOf`: `constraint_sites` and `constraint_choice_sum` are `u32` in the source (ttdn.rs:36-37). They are unbounded here, so a sum past 2^32 - 1, which would overflow in the source, is not modelled.
- `NonStructural.Mutate`: for the integer-literal increment it states only that a mutation names a collected site. A literal above `i64::MAX` is counted as a site, but `base10_parse::<i64>` fails on it (non_structural.rs:106), so the applier leaves it unchanged and reports no mutation; the converse is therefore not claimed for that kind. (A literal at `i64::MAX` does change: it wraps to `i64::MIN`, as `NonStructural.WrappingInc` states.)
- `StructuralInjection.Mutate`: the applier of `structural.rs` also descends into the generic parameters of a trait's associated type (structural.rs:654-665), which its collector does not (structural.rs:378-380). The model's applier follows the collector's numbering. The shift this causes is exhibited for `Mutation_2` by `ConstraintApplier.GatParamShiftsApplierCounter`, and the same input shifts `structural.rs` the same way.
- `AddItems.AddImplMutate`: the Mutation_1 mutators are unit structs with no state of their own, so the model has functions and methods over the file and no class.
- Serialising reports and metadata as JSON text is not modelled: `save_report`, `ttdn_metrics` output and the detail log. Their values are records.
- `ProjectionMutator.Collect`: the projection mutator overrides only `visit_type`/`visit_type_mut` (Mutation_3.rs:116-141, 308-343), so syn's default walk makes every type of the file a possible site. The abstract file has no let annotations, casts or turbofish arguments in function bodies, no `const`/`static` item types, no type-parameter defaults, no generic arguments inside bounds and supertraits, no arguments on non-final path segments and no trait arguments of a qualified self. Types there are not counted and never rewritten, so for a file that has such types the site count, the choice entries and the site numbering of `ProjectionMutator.Metrics`, `ProjectionMutator.ChoiceEntries`, `ProjectionMutator.Mutate` and `ProjectionMutator.RunWithMetaAndChoice` differ from the source's.
- `NonStructural.CollectSites`: the abstract file has expressions only in function and method bodies and impl consts. The source visitor also reaches top-level `const` and `static` initialisers, trait const defaults, enum discriminants, array lengths and const arguments inside types, and literal patterns. Sites there are not collected, so the site numbering of a file that has such expressions differs from the source's.
- `NonStructural.WrappingInc`: integer literals carry no type suffix here. The source rebuilds the incremented literal from its value alone (non_structural.rs:108), which drops a suffix, so `255u8` becomes `256`. The model cannot show the lost suffix.
- `StructuralInjection.Mutate`: the equality `<SelfTy as Trait>::Assoc = Rhs` is built with `parse_quote!` as a `syn::WherePredicate` (structural.rs:513). syn 2, whose `TraitItem::Fn` naming the tool uses, has no equality where-predicate, so that parse fails and the tool panics. The model instead injects the equality as an `EqPred` (`StructuralInjection.ProjEq`), and `StructuralInjection.ProjectionPredicateOrigin` counts it as a possible origin.
- `Text.IsDigits` accepts ASCII digits only, and with it `PromotedDirs.MaxSuffix`, `PromotedDirs.PickNextNewSeedDir` and `SeedSelection.IsPromotedSeed`. Python's `str.isdigit()` (main.py:297 and 620) also accepts other Unicode digits, and the two uses differ on them:
  - A suffix such as `new٣` (an Arabic-Indic digit, which `int` accepts as 3) counts as numbered in the source, both for the promoted-seed test at main.py:620 and for the maximum at main.py:297-298; here it is ignored.
  - A suffix such as `new²` passes `isdigit()` but makes `int()` raise `ValueError`. The promoted-seed test at main.py:620 still calls such a seed promoted. `pick_next_new_seed_dir` raises: `maybe_roll_promoted_dir` then keeps the current directory (main.py:338-340), and the call at start-up (main.py:954) ends the worker. Here the directory is simply not numbered.
- `PromotedDirs.MaxSuffix`: a suffix of non-ASCII digits is never counted (see the `Text.IsDigits` line), so `PromotedDirs.PickNextNewSeedDir` neither counts a `new٣` directory nor raises on a `new²` one.
- `Retention.EnforceResultsLimits`: each phase reads one consistent `Disk` value, updated only by its own deletions. Entries that another worker creates or deletes between two listings are not modelled, apart from the stale rewrite listing.
- `SeedSelection.SeedSelector.Select`: the set of files on disk (`onDisk`) is one snapshot for the whole selection. A file that vanishes or reappears between two draws is not modelled.
- `PromotedDirs.PickNextNewSeedDir`: the directory is assumed to be created. A failing `mkdir` raises in the source; the model handles this only in `PromotedDirs.MaybeRollPromotedDir` (its `created` input), where the surrounding `try` keeps the current directory. At start-up (main.py:954) the exception would end the run, and that is not modelled.
- `SeedSelection.SeedSelector.constructor`: the float settings (`seed_promoted_pool_prob`, `seed_weight_temperature`, the decay betas and the minimum weights) and their clamping are not kept, because the weighted draw they shape is a nondeterministic pick.

## Findings

| source | as written | input that shows it | evidently intended | confidence | as-written member | corrected member |
|---|---|---|---|---|---|---|
| trait-fuzzer/mutation/mutation-AST/src/mutators/non_structural.rs:217-235 | `InjectFlowCollector::visit_block` counts a block but does not descend into it, while `InjectFlowApplier::visit_block_mut` numbers nested blocks too | `fn a() { { } } fn b() { }`: the collector counts 2 blocks, so `run` draws index 0 or 1, and both land inside `a`; the body of `b` (applier index 2) never receives the statement | the collector counts every block the applier visits, so that every block can be drawn | not executed | NonStructural.InjectCountMissesBlock | NonStructural.ItemsChangedIff |
| trait-fuzzer/mutation/mutation-AST/src/mutators/trait_pattern.rs:192-205 | unsigned consts get a value drawn from `0..1000` and signed consts one drawn from `-1000..1000`, whatever the width | `const C: u8 = 999;` or `const C: i8 = -1000;` can be generated; neither literal fits its type, so the mutant is rejected for a reason unrelated to traits | draws inside the range of the const's own type | not executed | TraitPattern.GeneratedValueOverflows | TraitPattern.GenerateFittingConstValue |
| trait-fuzzer/mutation/mutation-AST/src/mutators/Mutation_3.rs:308-343 | the applier advances `current` on every type found in the projection map (line 337), while the collectors (lines 116-141) count only the sites that have a candidate other than the binding's own right-hand side | `impl Tr for S { type A = u32; } fn f(_: u32) {}`: the collectors number the parameter's `u32` as site 0, but the applier's counter reaches 0 at the binding's own `u32` and the file comes back unchanged | the applier numbers exactly the sites the collectors count | not executed | ProjectionMutator.EveryMatchMissesSite | ProjectionMutator.Mutate |
| trait-fuzzer/mutation/mutation-AST/src/mutators/Mutation_2.rs:958-964 | `visit_trait_item_type_mut` counts the associated type and then descends into its generic parameters, which the collector's `visit_trait_item_type` (lines 88-94) does not | `trait Tr { type A<T>; type B; }`: the collectors list 3 sites and number `B`'s bound site 2, but the applier meets the GAT parameter `T` at counter 2, so a choice aimed at `B` edits `T` | the applier follows the collectors' numbering | not executed | ConstraintApplier.GatParamShiftsApplierCounter | ConstraintApplier.Applier.VisitFile |
