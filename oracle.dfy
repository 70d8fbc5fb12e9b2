/** The differential oracle of the fuzzing worker: how the stable, nightly and
    next-solver results of one mutant (and of its seed's baseline) become a
    verdict, which result categories the case is written to, whether the
    seed's family is banned, and how SUCCESS mutants are promoted into new
    seeds under a per-parent cap. */
module Oracle {
  import opened Wrappers
  import opened CompilerInterface

  /** Severity order used for the overall verdict. */
  function Rank(s: Status): nat {
    match s
    case CRASH => 4
    case HANG => 3
    case ERROR => 2
    case SUCCESS => 1
    case UNKNOWN => 0
  }

  /** The worst of `first` and `rest`, scanning left to right and replacing
      the current pick only by a strictly worse status. */
  function WorstFrom(first: Status, rest: seq<Status>): Status
    decreases |rest|
  {
    if rest == [] then first
    else
      var next := if Rank(rest[0]) > Rank(first) then rest[0] else first;
      WorstFrom(next, rest[1..])
  }

  /** The scan picks a maximum-rank member of the list. */
  lemma {:induction false} WorstFromIsMax(first: Status, rest: seq<Status>)
    ensures var w := WorstFrom(first, rest);
      && (w == first || w in rest)
      && Rank(w) >= Rank(first)
      && forall i :: 0 <= i < |rest| ==> Rank(w) >= Rank(rest[i])
    decreases |rest|
  {
    if rest != [] {
      var next := if Rank(rest[0]) > Rank(first) then rest[0] else first;
      WorstFromIsMax(next, rest[1..]);
      var w := WorstFrom(first, rest);
      assert forall i :: 1 <= i < |rest| ==> rest[i] == rest[1..][i - 1];
    }
  }

  /** Overall status of a mutant: start from the stable result and take the
      nightly or next-solver result whenever it ranks strictly higher. */
  method OverallStatus(stable: Status, nightly: Option<Status>, next: Option<Status>)
    returns (result: Status)
    ensures result == stable || nightly == Some(result) || next == Some(result)
    ensures Rank(result) >= Rank(stable)
    ensures nightly.Some? ==> Rank(result) >= Rank(nightly.value)
    ensures next.Some? ==> Rank(result) >= Rank(next.value)
  {
    var others := [nightly, next];
    result := stable;
    var k := 0;
    while k < |others|
      invariant 0 <= k <= |others|
      invariant result == stable || (exists j :: 0 <= j < k && others[j] == Some(result))
      invariant Rank(result) >= Rank(stable)
      invariant forall j :: 0 <= j < k && others[j].Some? ==> Rank(result) >= Rank(others[j].value)
    {
      var r := others[k];
      if r.Some? && Rank(r.value) > Rank(result) {
        result := r.value;
      }
      k := k + 1;
    }
    assert others[0] == nightly && others[1] == next;
  }

  /** A seed is "fate" when the worst status among its baseline results
      (stable, then nightly and next when enabled) is CRASH or HANG. A
      baseline that could not be computed (`None`) never makes a seed fate. */
  method SeedIsFate(baseline: Option<seq<Status>>) returns (fate: bool)
    ensures baseline.None? ==> !fate
    ensures baseline.Some? ==>
      (fate <==> exists i :: 0 <= i < |baseline.value| && baseline.value[i] in {CRASH, HANG})
  {
    if baseline.None? {
      return false;
    }
    var results := baseline.value;
    var worst: Option<Status> := None;
    var k := 0;
    while k < |results|
      invariant 0 <= k <= |results|
      invariant worst.None? <==> k == 0
      invariant worst.Some? ==> worst.value in results[..k]
      invariant worst.Some? ==> forall j :: 0 <= j < k ==> Rank(results[j]) <= Rank(worst.value)
    {
      var st := results[k];
      if worst.None? || Rank(st) > Rank(worst.value) {
        worst := Some(st);
      }
      k := k + 1;
    }
    fate := worst.Some? && worst.value in {CRASH, HANG};
    if fate {
      assert worst.value in results;
    } else if worst.Some? {
      forall i | 0 <= i < |results|
        ensures results[i] !in {CRASH, HANG}
      {
        assert Rank(results[i]) <= Rank(worst.value);
      }
    }
  }

  /** Miscompilation: with detection on and both nightly compilers enabled,
      the nightly and next-solver results disagree as SUCCESS versus ERROR. */
  predicate IsMiscompilation(detect: bool, nightlyOn: bool, nextOn: bool,
                             nightly: Option<Status>, next: Option<Status>)
  {
    detect && nightlyOn && nextOn && nightly.Some? && next.Some?
    && nightly.value in {SUCCESS, ERROR} && next.value in {SUCCESS, ERROR}
    && nightly.value != next.value
  }

  /** A miscompilation always involves one ERROR, so the overall verdict of a
      miscompiled mutant is never SUCCESS, and the test is symmetric. */
  lemma MiscompilationNotSuccess(detect: bool, nightlyOn: bool, nextOn: bool,
                                 stable: Status, nightly: Option<Status>, next: Option<Status>)
    requires IsMiscompilation(detect, nightlyOn, nextOn, nightly, next)
    ensures IsMiscompilation(detect, nextOn, nightlyOn, next, nightly)
    ensures {nightly.value, next.value} == {SUCCESS, ERROR}
    ensures WorstFrom(stable, [nightly.value, next.value]) != SUCCESS
  {
    WorstFromIsMax(stable, [nightly.value, next.value]);
    var w := WorstFrom(stable, [nightly.value, next.value]);
    assert Rank(w) >= Rank(ERROR) by {
      if nightly.value == ERROR {
        assert [nightly.value, next.value][0] == ERROR;
      } else {
        assert [nightly.value, next.value][1] == ERROR;
      }
    }
  }

  /** The lower-case status name used as the result category. */
  function StatusName(s: Status): string {
    match s
    case SUCCESS => "success"
    case ERROR => "error"
    case HANG => "hang"
    case CRASH => "crash"
    case UNKNOWN => "unknown"
  }

  datatype Verdict = Verdict(
    statusName: string,
    persist: bool,
    miscompilation: bool,
    banFamily: bool,
    haltSeed: bool,
    destinations: seq<string>)

  /** How a compiled mutant is classified and where it is stored.
      `miscompiled` is the mutant's own miscompilation test, `seedMiscompiles`
      and `seedFate` are the baseline tests for its seed. */
  function Classify(overall: Status, keepSuccessCases: int, miscompiled: bool,
                    seedMiscompiles: bool, seedFate: bool): (v: Verdict)
    // A CRASH or HANG bans the ancestor family and stops mutating the seed.
    ensures v.banFamily == (overall in {CRASH, HANG}) && v.haltSeed == v.banFamily
    // "fate": the baseline already miscompiles, or already crashes/hangs.
    ensures v.statusName == "fate" <==>
      (miscompiled && seedMiscompiles) || (overall in {CRASH, HANG} && seedFate)
    ensures v.statusName != "fate" ==> v.statusName == StatusName(overall)
    ensures v.miscompilation <==> miscompiled && !seedMiscompiles
    // SUCCESS is dropped only when successes are not kept and nothing relabels it.
    ensures !v.persist <==>
      overall == SUCCESS && keepSuccessCases == 0 && !(miscompiled && seedMiscompiles)
    ensures v.persist ==> |v.destinations| > 0 && v.destinations[0] == v.statusName
    ensures forall d :: d in v.destinations <==>
      (v.persist && d == v.statusName) || (v.miscompilation && d == "miscompilation")
    ensures forall i, j :: 0 <= i < j < |v.destinations| ==> v.destinations[i] != v.destinations[j]
  {
    var name0 := StatusName(overall);
    var persist0 := !(overall == SUCCESS && keepSuccessCases == 0);
    var relabel := miscompiled && seedMiscompiles;
    var name1 := if relabel then "fate" else name0;
    var persist1 := if relabel then true else persist0;
    var misc := miscompiled && !relabel;
    var crashOrHang := persist1 && overall in {CRASH, HANG};
    var name2 := if crashOrHang && seedFate then "fate" else name1;
    var dests := (if persist1 then [name2] else []) + (if misc then ["miscompilation"] else []);
    Verdict(name2, persist1, misc, crashOrHang, crashOrHang, Dedup(dests))
  }

  /** `list(dict.fromkeys(xs))` for a list of at most two names. */
  function Dedup(xs: seq<string>): (r: seq<string>)
    requires |xs| <= 2
    ensures forall d :: d in r <==> d in xs
    ensures |xs| > 0 ==> |r| > 0 && r[0] == xs[0]
    ensures forall i, j :: 0 <= i < j < |r| ==> r[i] != r[j]
  {
    if |xs| == 2 && xs[0] == xs[1] then [xs[0]] else xs
  }

  /** When the baseline already miscompiles, a miscompiled mutant is never
      stored as a miscompilation: it goes to the "fate" category. */
  lemma BaselineMiscompilationIsFate(overall: Status, keep: int, seedFate: bool)
    ensures var v := Classify(overall, keep, true, true, seedFate);
      v.destinations == ["fate"]
  {
  }

  /** Promotion of SUCCESS mutants into the promoted-seed directory: only
      constraint-injection mutants qualify, and each parent seed is promoted
      at most `maxPerSeed` times. */
  predicate PromoteEligible(hasPromotedDir: bool, promoteSuccess: bool, strategy: string, status: Status) {
    hasPromotedDir && promoteSuccess && strategy == "constraint_injection" && status == SUCCESS
  }

  class PromotionLedger {
    const maxPerSeed: int
    var counts: map<string, nat>

    ghost predicate Valid()
      reads this
    {
      forall p :: p in counts ==> 0 < counts[p] <= maxPerSeed
    }

    function Promoted(parent: string): nat
      reads this
    {
      if parent in counts then counts[parent] else 0
    }

    constructor (maxPromotionsPerSeed: int)
      ensures Valid() && maxPerSeed == maxPromotionsPerSeed && counts == map[]
    {
      maxPerSeed := maxPromotionsPerSeed;
      counts := map[];
    }

    /** One promotion attempt for a mutant of `parent`. A non-positive cap
        disables promotion; a parent at the cap is skipped; a failed write
        leaves the ledger unchanged. */
    method TryPromote(parent: string, eligible: bool, writeFails: bool) returns (promoted: bool)
      requires Valid()
      modifies this
      ensures Valid()
      ensures promoted <==>
        eligible && maxPerSeed > 0 && old(Promoted(parent)) < maxPerSeed && !writeFails
      ensures promoted ==> counts == old(counts)[parent := old(Promoted(parent)) + 1]
      ensures !promoted ==> counts == old(counts)
    {
      promoted := false;
      if !eligible || maxPerSeed <= 0 {
        return;
      }
      var soFar := Promoted(parent);
      if soFar >= maxPerSeed {
        return;
      }
      if writeFails {
        return;
      }
      counts := counts[parent := soFar + 1];
      promoted := true;
    }
  }
}
