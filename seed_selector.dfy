/** The seed scheduler of the fuzzing worker (`SeedSelector`): the seed
    list with its promoted subset, per-seed and per-family pick counters,
    the two bounded recency windows, the banned families and the score
    cache. File contents, modification times, tool metrics and which paths
    still exist are inputs; every random draw is a nondeterministic choice
    from the set it is drawn from. */
module SeedSelection {
  import opened Wrappers
  import opened Text
  import opened SeedFilter

  /** A seed file: whether it lies under the seeds directory, the
      directories between that directory and the file, and the file name
      split as `pathlib` splits it into `stem` and `suffix`. */
  datatype SeedPath = SeedPath(underSeeds: bool, dirs: seq<string>, stem: string, suffix: string)

  function Name(p: SeedPath): string {
    p.stem + p.suffix
  }

  /** `Path.suffix == ".rs"`. */
  predicate HasRsSuffix(p: SeedPath) {
    p.suffix == ".rs"
  }

  /** A family key: a tag carried in the file name or given explicitly, or
      the seed's own resolved path. */
  datatype Family = Tagged(tag: string) | OwnPath(path: SeedPath)

  const FAMILY_MARK := "__fam__"

  /** `_infer_family_from_seed`: the text after the first `__fam__` in the
      stem, else the seed's own path. */
  function InferFamily(seed: SeedPath): Family {
    FamilyFromStem(seed.stem, seed)
  }

  /** The scan behind `InferFamily`, one character at a time. */
  function FamilyFromStem(stem: string, seed: SeedPath): Family
    decreases |stem|
  {
    if StartsWith(stem, FAMILY_MARK) then Tagged(stem[|FAMILY_MARK|..])
    else if stem == [] then OwnPath(seed)
    else FamilyFromStem(stem[1..], seed)
  }

  /** The scan splits at the first marker: it yields the tag `AfterFirst`
      finds, or the seed's own path when the stem has no marker. */
  lemma {:induction false} FamilyFromStemSplits(stem: string, seed: SeedPath)
    ensures FamilyFromStem(stem, seed) ==
      match AfterFirst(stem, FAMILY_MARK)
      case Some(tag) => Tagged(tag)
      case None => OwnPath(seed)
    decreases |stem|
  {
    if !StartsWith(stem, FAMILY_MARK) && stem != [] {
      FamilyFromStemSplits(stem[1..], seed);
    }
  }

  /** A stem `<name>__fam__<tag>` whose first part has no underscore splits
      into exactly `tag`. */
  lemma TaggedStemSplits(name: string, tag: string)
    requires forall i :: 0 <= i < |name| ==> name[i] != '_'
    ensures AfterFirst(name + FAMILY_MARK + tag, FAMILY_MARK) == Some(tag)
  {
    var stem := name;
    var s := stem + FAMILY_MARK + tag;
    assert s[|stem|..|stem| + |FAMILY_MARK|] == FAMILY_MARK;
    ContainsAt(s, FAMILY_MARK, |stem|);
    AfterFirstIsFirst(s, FAMILY_MARK);
    AfterFirstIsSuffix(s, FAMILY_MARK);
    var r := AfterFirst(s, FAMILY_MARK).value;
    var k := |s| - |r| - |FAMILY_MARK|;
    assert OccursAt(s, FAMILY_MARK, |stem|);
    assert k <= |stem|;
    assert k >= |stem| by {
      assert OccursAt(s, FAMILY_MARK, k);
      assert s[k..k + |FAMILY_MARK|][0] == '_';
      forall j | 0 <= j < |stem|
        ensures s[j] != '_'
      {
        assert s[j] == stem[j];
      }
    }
    assert r == s[|stem| + |FAMILY_MARK|..] == tag;
  }

  /** A seed whose stem is `<name>__fam__<tag>`, where `name` has no
      underscore, belongs to family `tag`. */
  lemma InferFamilyOfTaggedName(seed: SeedPath, name: string, tag: string)
    requires seed.stem == name + FAMILY_MARK + tag
    requires forall i :: 0 <= i < |name| ==> name[i] != '_'
    ensures InferFamily(seed) == Tagged(tag)
  {
    TaggedStemSplits(name, tag);
    FamilyFromStemSplits(seed.stem, seed);
  }

  /** A seed whose stem has no marker is its own family. */
  lemma UntaggedIsOwnFamily(seed: SeedPath)
    requires !Contains(seed.stem, FAMILY_MARK)
    ensures InferFamily(seed) == OwnPath(seed)
  {
    FamilyFromStemSplits(seed.stem, seed);
  }

  /** `_is_promoted_seed`: the first path component under the seeds
      directory is the promoted prefix followed by at least one digit. */
  predicate IsPromotedSeed(seed: SeedPath, prefix: string) {
    var top := if seed.dirs != [] then seed.dirs[0] else Name(seed);
    seed.underSeeds && StartsWith(top, prefix) && IsDigits(top[|prefix|..])
  }

  /** The metrics the tool's `ttdn_metrics` mode reports for a seed
      (absent keys read as 0). */
  datatype Metrics = Metrics(constraintChoiceSum: int, depth: int, cycles: int)

  /** The score of a seed: its constraint-choice sum, or for an older tool
      that reports none, `max(1, depth * 20 + cycles)`. */
  function RawScore(m: Metrics): (score: int)
    ensures score >= 1
    ensures m.constraintChoiceSum > 0 ==> score == m.constraintChoiceSum
    ensures m.constraintChoiceSum <= 0 ==> score >= m.depth * 20 + m.cycles
    ensures m.constraintChoiceSum <= 0 && m.depth * 20 + m.cycles >= 1 ==> score == m.depth * 20 + m.cycles
    ensures m.constraintChoiceSum <= 0 && m.depth * 20 + m.cycles < 1 ==> score == 1
  {
    if m.constraintChoiceSum > 0 then m.constraintChoiceSum
    else if m.depth * 20 + m.cycles > 1 then m.depth * 20 + m.cycles else 1
  }

  predicate Distinct<T(==)>(xs: seq<T>) {
    forall i, j :: 0 <= i < j < |xs| ==> xs[i] != xs[j]
  }

  /** `[y for y in xs if y != x]`. */
  function Without<T(==)>(xs: seq<T>, x: T): (r: seq<T>)
    ensures |r| <= |xs|
    ensures forall i :: 0 <= i < |r| ==> r[i] != x && r[i] in xs
    ensures forall i :: 0 <= i < |xs| && xs[i] != x ==> xs[i] in r
  {
    if xs == [] then []
    else
      var rest := Without(xs[1..], x);
      assert forall i :: 1 <= i < |xs| ==> xs[i] == xs[1..][i - 1];
      if xs[0] == x then rest else [xs[0]] + rest
  }

  lemma DistinctAppend<T>(xs: seq<T>, x: T)
    requires Distinct(xs) && x !in xs
    ensures Distinct(xs + [x])
  {
  }

  /** Filtering keeps a list free of duplicates. */
  lemma {:induction false} WithoutDistinct<T>(xs: seq<T>, x: T)
    requires Distinct(xs)
    ensures Distinct(Without(xs, x))
  {
    if xs != [] {
      assert Distinct(xs[1..]);
      WithoutDistinct(xs[1..], x);
    }
  }

  /** Appending to a `deque(maxlen=maxlen)`: the oldest element falls out
      when the window is full. */
  function Push<T>(w: seq<T>, x: T, maxlen: nat): (r: seq<T>)
    requires 0 < maxlen && |w| <= maxlen
    ensures |r| <= maxlen && |r| == Min(|w| + 1, maxlen)
    ensures r[|r| - 1] == x
  {
    if |w| < maxlen then w + [x] else w[1..] + [x]
  }

  /** The window keeps the newest `maxlen` elements of the history, in
      order. */
  lemma PushKeepsNewest<T>(w: seq<T>, x: T, maxlen: nat)
    requires 0 < maxlen && |w| <= maxlen
    ensures var r := Push(w, x, maxlen);
      r == (w + [x])[|w| + 1 - |r|..]
      && (|w| < maxlen ==> r[..|w|] == w)
      && (|w| == maxlen ==> r[..|w| - 1] == w[1..])
  {
  }

  function Min(a: int, b: int): int { if a < b then a else b }

  /** A seed file found under the seeds directory. */
  datatype SeedFile = SeedFile(path: SeedPath, isFile: bool, size: nat, text: Option<string>)

  /** Whether the constructor keeps a listed file: a non-empty regular file
      that does not use rustc-internal features. */
  predicate Usable(f: SeedFile) {
    f.isFile && f.size > 0 && !SeedIsInternalOnly(f.text)
  }

  /** Whether `add_seed` takes a new seed: a regular `.rs` file that is not
      yet a seed and does not use internal features. */
  predicate Accepted(s: SeedPath, isFile: bool, text: Option<string>, seeds: seq<SeedPath>) {
    isFile && HasRsSuffix(s) && s !in seeds && !SeedIsInternalOnly(text)
  }

  /** The paths of the usable files of a listing, in listing order. */
  function UsablePaths(files: seq<SeedFile>): (r: seq<SeedPath>)
    ensures forall p :: p in r <==> exists f :: f in files && f.path == p && Usable(f)
  {
    if files == [] then []
    else
      var last := files[|files| - 1];
      assert files == files[..|files| - 1] + [last];
      UsablePaths(files[..|files| - 1]) + (if Usable(last) then [last.path] else [])
  }

  /** The constructor's first loop: the paths of the usable files, in
      listing order; distinct paths stay distinct. */
  method UsableListing(files: seq<SeedFile>) returns (valid: seq<SeedPath>)
    requires forall i, j :: 0 <= i < j < |files| ==> files[i].path != files[j].path
    ensures valid == UsablePaths(files)
    ensures Distinct(valid)
  {
    valid := [];
    var k := 0;
    while k < |files|
      invariant 0 <= k <= |files|
      invariant valid == UsablePaths(files[..k])
      invariant Distinct(valid)
      invariant forall i :: 0 <= i < |valid| ==> exists m :: 0 <= m < k && files[m].path == valid[i]
    {
      assert files[..k + 1][..k] == files[..k];
      if Usable(files[k]) {
        forall i | 0 <= i < |valid|
          ensures valid[i] != files[k].path
        {
          var m :| 0 <= m < k && files[m].path == valid[i];
        }
        valid := valid + [files[k].path];
      }
      k := k + 1;
    }
    assert files[..k] == files;
  }

  /** The sharding loop: entry `j` of the listing is taken exactly when
      `j % shards == shardIndex`, in listing order. */
  method TakeShard(valid: seq<SeedPath>, shards: nat, shardIndex: int) returns (mine: seq<SeedPath>)
    requires shards >= 1 && Distinct(valid)
    ensures Distinct(mine)
    ensures forall s :: s in mine ==> s in valid
    ensures forall j :: 0 <= j < |valid| ==> (valid[j] in mine <==> j % shards == shardIndex)
  {
    mine := [];
    var i := 0;
    while i < |valid|
      invariant 0 <= i <= |valid|
      invariant Distinct(mine)
      invariant forall s :: s in mine ==> s in valid[..i]
      invariant forall j :: 0 <= j < i ==> (valid[j] in mine <==> j % shards == shardIndex)
    {
      if i % shards == shardIndex {
        assert valid[i] !in valid[..i];
        mine := mine + [valid[i]];
      } else {
        assert valid[i] !in valid[..i];
      }
      i := i + 1;
    }
  }

  class SeedSelector {
    const promotedPrefix: string
    const repeatWindow: nat
    const familyRepeatWindow: nat
    const maxPicksPerSeed: Option<int>
    const pickRetryLimit: nat

    var seeds: seq<SeedPath>
    var promoted: set<SeedPath>
    var scores: map<SeedPath, int>
    var scoresInitialized: bool
    var scoreCache: map<(SeedPath, int), int>
    var pickCounts: map<SeedPath, nat>
    var recent: seq<SeedPath>
    var familyPickCounts: map<Family, nat>
    var familyRecent: seq<Family>
    var seedFamily: map<SeedPath, Family>
    var banned: set<Family>

    ghost predicate Valid()
      reads this`recent, this`familyRecent, this`seeds, this`promoted, this`scores
    {
      && |recent| <= repeatWindow
      && |familyRecent| <= familyRepeatWindow
      && pickRetryLimit >= 1
      && Distinct(seeds)
      && (forall s :: s in promoted ==> s in seeds)
      && (forall s :: s in scores ==> s in seeds)
    }

    /** The constructor: keep the usable files of the (sorted) listing, take
        every `numShards`-th of them starting at `shardIndex`, and clamp the
        configured windows and retry limit. */
    constructor (files: seq<SeedFile>, prefix: string, shardIndex: int, numShards: int,
                 repeatWindowCfg: int, familyRepeatWindowCfg: int, maxPicks: Option<int>,
                 retryLimitCfg: int)
      requires Distinct(files)
      requires forall i, j :: 0 <= i < j < |files| ==> files[i].path != files[j].path
      ensures Valid()
      ensures promotedPrefix == (if prefix == "" then "new" else prefix)
      ensures forall s :: s in seeds ==> exists f :: f in files && f.path == s && Usable(f)
      ensures forall s :: s in promoted <==> s in seeds && IsPromotedSeed(s, promotedPrefix)
      ensures numShards <= 1 && shardIndex == 0 ==>
        forall f :: f in files && Usable(f) ==> f.path in seeds
      ensures forall s :: s in seeds ==> s in UsablePaths(files)
      ensures var valid := UsablePaths(files);
        forall j :: 0 <= j < |valid| ==>
          (valid[j] in seeds <==> j % (if numShards < 1 then 1 else numShards) == shardIndex)
      ensures pickCounts == map[] && recent == [] && banned == {} && scores == map[]
      ensures familyPickCounts == map[] && familyRecent == [] && seedFamily == map[]
      ensures !scoresInitialized && scoreCache == map[]
      ensures repeatWindow == (if repeatWindowCfg < 0 then 0 else repeatWindowCfg)
      ensures familyRepeatWindow == (if familyRepeatWindowCfg < 0 then 0 else familyRepeatWindowCfg)
      ensures maxPicksPerSeed == maxPicks
      ensures pickRetryLimit == (if retryLimitCfg <= 0 then 1 else retryLimitCfg)
    {
      var pfx := if prefix == "" then "new" else prefix;
      promotedPrefix := pfx;
      var shards := if numShards < 1 then 1 else numShards;
      repeatWindow := if repeatWindowCfg < 0 then 0 else repeatWindowCfg;
      familyRepeatWindow := if familyRepeatWindowCfg < 0 then 0 else familyRepeatWindowCfg;
      maxPicksPerSeed := maxPicks;
      pickRetryLimit := if retryLimitCfg <= 0 then 1 else retryLimitCfg;
      var valid := UsableListing(files);
      var mine := TakeShard(valid, shards, shardIndex);
      if shards == 1 && shardIndex == 0 {
        forall f | f in files && Usable(f)
          ensures f.path in mine
        {
          assert f.path in valid;
          var j :| 0 <= j < |valid| && valid[j] == f.path;
        }
      }
      seeds := mine;
      promoted := set s | s in mine && IsPromotedSeed(s, pfx);
      scores := map[];
      scoresInitialized := false;
      scoreCache := map[];
      pickCounts := map[];
      recent := [];
      familyPickCounts := map[];
      familyRecent := [];
      seedFamily := map[];
      banned := {};
    }

    function PickCount(s: SeedPath): nat
      reads this`pickCounts
    {
      if s in pickCounts then pickCounts[s] else 0
    }

    function FamilyPickCount(f: Family): nat
      reads this`familyPickCounts
    {
      if f in familyPickCounts then familyPickCounts[f] else 0
    }

    /** `_family_key`'s answer: the recorded family, else the inferred one. */
    function FamilyOf(s: SeedPath): Family
      reads this`seedFamily
    {
      if s in seedFamily then seedFamily[s] else InferFamily(s)
    }

    /** `_family_key`: memoises the family of `s`, which never changes the
        family of any seed. */
    method FamilyKey(s: SeedPath) returns (f: Family)
      modifies this`seedFamily
      ensures f == old(FamilyOf(s))
      ensures seedFamily == old(seedFamily)[s := f]
      ensures forall t :: FamilyOf(t) == old(FamilyOf(t))
    {
      f := FamilyOf(s);
      seedFamily := seedFamily[s := f];
    }

    /** A seed may be picked: its family is not banned and, when a
        non-negative per-seed budget is set, it has been picked fewer times. */
    predicate Eligible(s: SeedPath)
      reads this`seedFamily, this`banned, this`pickCounts
    {
      FamilyOf(s) !in banned
      && (maxPicksPerSeed.Some? && maxPicksPerSeed.value >= 0 ==> PickCount(s) < maxPicksPerSeed.value)
    }

    function EligibleAmong(xs: seq<SeedPath>): (r: seq<SeedPath>)
      reads this`seedFamily, this`banned, this`pickCounts
      ensures forall s :: s in r <==> s in xs && Eligible(s)
      ensures Distinct(xs) ==> Distinct(r)
    {
      if xs == [] then []
      else
        var rest := EligibleAmong(xs[1..]);
        assert forall i :: 1 <= i < |xs| ==> xs[i] == xs[1..][i - 1];
        if Eligible(xs[0]) then [xs[0]] + rest else rest
    }

    /** `_eligible_seeds`. */
    function EligibleSeeds(): (r: seq<SeedPath>)
      reads this`seeds, this`seedFamily, this`banned, this`pickCounts
      ensures forall s :: s in r <==> s in seeds && Eligible(s)
    {
      EligibleAmong(seeds)
    }

    function PromotedAmong(xs: seq<SeedPath>, inPromoted: bool): (r: seq<SeedPath>)
      reads this`promoted
      ensures forall s :: s in r <==> s in xs && (s in promoted) == inPromoted
    {
      if xs == [] then []
      else
        var rest := PromotedAmong(xs[1..], inPromoted);
        assert forall i :: 1 <= i < |xs| ==> xs[i] == xs[1..][i - 1];
        if (xs[0] in promoted) == inPromoted then [xs[0]] + rest else rest
    }

    /** `_choose_pool_candidates`: the promoted part of `eligible` when
        `wantPromoted` (the draw below `seed_promoted_pool_prob`) and it is
        non-empty, otherwise the base part, falling back to the promoted part
        when there is no base seed. */
    function ChoosePoolCandidates(eligible: seq<SeedPath>, wantPromoted: bool): (r: seq<SeedPath>)
      reads this`promoted
      ensures eligible != [] ==> r != []
      ensures forall s :: s in r ==> s in eligible
      ensures (forall s :: s in eligible && s in promoted ==> s in r)
           || (forall s :: s in eligible && s !in promoted ==> s in r)
      ensures (forall s :: s in r ==> s in promoted) || (forall s :: s in r ==> s !in promoted)
      ensures wantPromoted && (exists s :: s in eligible && s in promoted) ==>
        forall s :: s in r ==> s in promoted
      ensures !wantPromoted && (exists s :: s in eligible && s !in promoted) ==>
        forall s :: s in r ==> s !in promoted
    {
      if eligible == [] then eligible
      else
        var prom := PromotedAmong(eligible, true);
        var base := PromotedAmong(eligible, false);
        assert eligible[0] in prom || eligible[0] in base;
        if wantPromoted && prom != [] then prom
        else if base != [] then base
        else prom
    }

    function NotRecent(xs: seq<SeedPath>): (r: seq<SeedPath>)
      reads this`recent
      ensures forall s :: s in r <==> s in xs && s !in recent
    {
      if xs == [] then []
      else
        var rest := NotRecent(xs[1..]);
        assert forall i :: 1 <= i < |xs| ==> xs[i] == xs[1..][i - 1];
        if xs[0] !in recent then [xs[0]] + rest else rest
    }

    function FamilyNotRecent(xs: seq<SeedPath>): (r: seq<SeedPath>)
      reads this`seedFamily, this`familyRecent
      ensures forall s :: s in r <==> s in xs && FamilyOf(s) !in familyRecent
    {
      if xs == [] then []
      else
        var rest := FamilyNotRecent(xs[1..]);
        assert forall i :: 1 <= i < |xs| ==> xs[i] == xs[1..][i - 1];
        if FamilyOf(xs[0]) !in familyRecent then [xs[0]] + rest else rest
    }

    /** First stage of `_candidates_within_window`: avoid recently picked
        seeds, unless that would leave nothing. */
    function SeedWindow(eligible: seq<SeedPath>): (r: seq<SeedPath>)
      reads this`recent
      ensures eligible != [] ==> r != []
      ensures forall s :: s in r ==> s in eligible
      ensures repeatWindow > 0 && |eligible| > 1 && (exists s :: s in eligible && s !in recent) ==>
        forall s :: s in r ==> s !in recent
      ensures r == eligible || forall s :: s in eligible && s !in recent ==> s in r
    {
      if repeatWindow == 0 || |eligible| <= 1 then eligible
      else
        var unseen := NotRecent(eligible);
        if unseen == [] then eligible else unseen
    }

    /** `_candidates_within_window`: the seed stage, then the same
        relaxation for recently picked families. */
    function CandidatesWithinWindow(eligible: seq<SeedPath>): (r: seq<SeedPath>)
      reads this`recent, this`seedFamily, this`familyRecent
      ensures eligible != [] ==> r != []
      ensures forall s :: s in r ==> s in eligible
      ensures repeatWindow > 0 && |eligible| > 1 && (exists s :: s in eligible && s !in recent) ==>
        forall s :: s in r ==> s !in recent
      ensures var stage := SeedWindow(eligible);
        familyRepeatWindow > 0 && |stage| > 1 && (exists s :: s in stage && FamilyOf(s) !in familyRecent) ==>
        forall s :: s in r ==> FamilyOf(s) !in familyRecent
    {
      var stage := SeedWindow(eligible);
      if familyRepeatWindow == 0 || |stage| <= 1 then stage
      else
        var unseen := FamilyNotRecent(stage);
        if unseen == [] then stage else unseen
    }

    /** `_record_pick`: one more pick for the seed and for its family, and
        both recorded in their recency windows (when enabled). */
    method RecordPick(s: SeedPath)
      requires Valid()
      modifies this`pickCounts, this`recent, this`seedFamily, this`familyPickCounts, this`familyRecent
      ensures Valid()
      ensures pickCounts == old(pickCounts)[s := old(PickCount(s)) + 1]
      ensures recent == if repeatWindow > 0 then Push(old(recent), s, repeatWindow) else old(recent)
      ensures var f := old(FamilyOf(s));
        && seedFamily == old(seedFamily)[s := f]
        && familyPickCounts == old(familyPickCounts)[f := old(FamilyPickCount(f)) + 1]
        && familyRecent == (if familyRepeatWindow > 0 then Push(old(familyRecent), f, familyRepeatWindow)
                            else old(familyRecent))
    {
      var f := FamilyKey(s);
      pickCounts := pickCounts[s := PickCount(s) + 1];
      if repeatWindow > 0 {
        recent := Push(recent, s, repeatWindow);
      }
      familyPickCounts := familyPickCounts[f := FamilyPickCount(f) + 1];
      if familyRepeatWindow > 0 {
        familyRecent := Push(familyRecent, f, familyRepeatWindow);
      }
    }

    /** `ban_family`: `None` is ignored. */
    method BanFamily(f: Option<Family>)
      modifies this`banned
      ensures banned == if f.Some? then old(banned) + {f.value} else old(banned)
    {
      if f.Some? {
        banned := banned + {f.value};
      }
    }

    /** `_score_one` for a seed with modification time `mtime`: cached by
        (path, mtime); a fresh entry is the raw score of the tool's metrics. */
    method ScoreOne(s: SeedPath, mtime: int, metrics: Metrics) returns (score: int)
      modifies this`scoreCache
      ensures score >= 1
      ensures (s, mtime) in old(scoreCache) ==>
        scoreCache == old(scoreCache) && score == (if old(scoreCache)[(s, mtime)] >= 1 then old(scoreCache)[(s, mtime)] else 1)
      ensures (s, mtime) !in old(scoreCache) ==>
        scoreCache == old(scoreCache)[(s, mtime) := RawScore(metrics)] && score == RawScore(metrics)
    {
      var key := (s, mtime);
      var cached;
      if key in scoreCache {
        cached := scoreCache[key];
      } else {
        cached := RawScore(metrics);
        scoreCache := scoreCache[key := cached];
      }
      score := if cached >= 1 then cached else 1;
    }

    /** `_score_one` guarded as its callers guard it: a seed whose file
        cannot be inspected (`None`) scores 1. */
    method ScoreOrOne(s: SeedPath, stat: Option<(int, Metrics)>) returns (score: int)
      modifies this`scoreCache
      ensures score >= 1
      ensures stat.None? ==> score == 1 && scoreCache == old(scoreCache)
      ensures stat.Some? && (s, stat.value.0) !in old(scoreCache) ==> score == RawScore(stat.value.1)
    {
      score := 1;
      if stat.Some? {
        score := ScoreOne(s, stat.value.0, stat.value.1);
      }
    }

    /** `_calculate_scores`: every seed gets a score; a seed whose file
        cannot be inspected (`stats` has no entry) scores 1. */
    method CalculateScores(stats: map<SeedPath, (int, Metrics)>)
      requires Valid()
      modifies this`scores, this`scoresInitialized, this`scoreCache
      ensures Valid()
      ensures scoresInitialized
      ensures forall s :: s in seeds ==> s in scores && scores[s] >= 1
      ensures forall s :: s in seeds && s !in stats ==> scores[s] == 1
    {
      var k := 0;
      while k < |seeds|
        invariant 0 <= k <= |seeds|
        invariant forall t :: t in scores ==> t in seeds
        invariant forall i :: 0 <= i < k ==> seeds[i] in scores && scores[seeds[i]] >= 1
        invariant forall i :: 0 <= i < k && seeds[i] !in stats ==> scores[seeds[i]] == 1
      {
        var s := seeds[k];
        var score := 1;
        if s in stats {
          score := ScoreOne(s, stats[s].0, stats[s].1);
        }
        scores := scores[s := score];
        k := k + 1;
      }
      scoresInitialized := true;
    }

    /** `add_seed`: a readable `.rs` file that is not yet a seed and does not
        use internal features is appended, remembered as promoted when it
        lies under a promoted directory, given its family (the non-empty
        `familyId`, else the inferred one), and scored when scoring has
        started. */
    method AddSeed(s: SeedPath, isFile: bool, text: Option<string>, familyId: Option<Family>,
                   stat: Option<(int, Metrics)>)
      returns (ghost added: bool)
      requires Valid()
      modifies this`seeds, this`promoted, this`seedFamily, this`scores, this`scoreCache
      ensures Valid()
      ensures added == Accepted(s, isFile, text, old(seeds))
      ensures !added ==>
        seeds == old(seeds) && promoted == old(promoted) && seedFamily == old(seedFamily) && scores == old(scores)
      ensures added ==> seeds == old(seeds) + [s]
      ensures added ==> promoted == if IsPromotedSeed(s, promotedPrefix) then old(promoted) + {s} else old(promoted)
      ensures added ==>
        seedFamily == old(seedFamily)[s := if familyId.Some? && familyId.value != Tagged("")
                                           then familyId.value else InferFamily(s)]
      ensures added && (old(scoresInitialized) || old(scores) != map[]) ==>
        s in scores && scores[s] >= 1 && scores == old(scores)[s := scores[s]]
      ensures added && !(old(scoresInitialized) || old(scores) != map[]) ==> scores == old(scores)
    {
      added := Accepted(s, isFile, text, seeds);
      if !Accepted(s, isFile, text, seeds) {
        return;
      }
      // Scoring touches only the score cache, so it is done before the
      // lists change; the source scores the seed after appending it.
      var scoring := scoresInitialized || scores != map[];
      var score := 1;
      if scoring {
        score := ScoreOrOne(s, stat);
      }
      DistinctAppend(seeds, s);
      var family := if familyId.Some? && familyId.value != Tagged("") then familyId.value else InferFamily(s);
      seeds, promoted, seedFamily, scores :=
        seeds + [s],
        (if IsPromotedSeed(s, promotedPrefix) then promoted + {s} else promoted),
        seedFamily[s := family],
        (if scoring then scores[s := score] else scores);
    }

    /** `remove_seed`: an absent seed changes nothing; a present one leaves
        the seed list, the scores, the promoted set, the pick counts, the
        family map and the recency window, and its family's counter and
        recency entries are dropped too. */
    method RemoveSeed(s: SeedPath)
      requires Valid()
      modifies this`seeds, this`scores, this`promoted, this`pickCounts, this`seedFamily, this`recent,
               this`familyPickCounts, this`familyRecent
      ensures Valid()
      ensures s !in old(seeds) ==>
        seeds == old(seeds) && scores == old(scores) && promoted == old(promoted)
        && pickCounts == old(pickCounts) && seedFamily == old(seedFamily) && recent == old(recent)
        && familyPickCounts == old(familyPickCounts) && familyRecent == old(familyRecent)
      ensures s in old(seeds) ==>
        seeds == Without(old(seeds), s) && scores == old(scores) - {s} && promoted == old(promoted) - {s}
      ensures s in old(seeds) ==> pickCounts == old(pickCounts) - {s} && seedFamily == old(seedFamily) - {s}
      ensures s in old(seeds) ==> recent == (if repeatWindow > 0 then Without(old(recent), s) else old(recent))
      ensures s in old(seeds) ==> var f := old(FamilyOf(s));
        && familyPickCounts == old(familyPickCounts) - {f}
        && familyRecent == (if familyRepeatWindow > 0 then Without(old(familyRecent), f) else old(familyRecent))
    {
      if s !in seeds {
        return;
      }
      var f := FamilyOf(s);
      WithoutDistinct(seeds, s);
      seeds := Without(seeds, s);
      scores := scores - {s};
      promoted := promoted - {s};
      pickCounts := pickCounts - {s};
      seedFamily := seedFamily - {s};
      if repeatWindow > 0 {
        recent := Without(recent, s);
      }
      familyPickCounts := familyPickCounts - {f};
      if familyRepeatWindow > 0 {
        familyRecent := Without(familyRecent, f);
      }
    }

    /** The candidate list `select` draws from: the eligible seeds, narrowed
        to one pool and then to the recency windows. */
    function Candidates(wantPromoted: bool): (r: seq<SeedPath>)
      reads this`seeds, this`seedFamily, this`banned, this`pickCounts, this`promoted,
            this`recent, this`familyRecent
      ensures forall t :: t in r ==> t in seeds && Eligible(t)
      ensures EligibleSeeds() != [] ==> r != []
    {
      CandidatesWithinWindow(ChoosePoolCandidates(EligibleSeeds(), wantPromoted))
    }

    /** `_pick_with_retry`: draw from `candidates` up to `pickRetryLimit`
        times; a drawn seed whose file still exists (`onDisk`) is the pick,
        any other is removed from the selector. The ghost `drawn` lists the
        draws in order: every draw but a successful last one was stale, only
        stale draws are removed, and `None` with a non-empty candidate list
        means every one of the `pickRetryLimit` draws was stale. */
    method PickWithRetry(candidates: seq<SeedPath>, onDisk: set<SeedPath>)
      returns (picked: Option<SeedPath>, ghost drawn: seq<SeedPath>)
      requires Valid()
      modifies this`seeds, this`scores, this`promoted, this`pickCounts, this`seedFamily, this`recent,
               this`familyPickCounts, this`familyRecent
      ensures Valid()
      ensures candidates == [] ==> picked.None? && drawn == []
      ensures |drawn| <= pickRetryLimit && forall d :: d in drawn ==> d in candidates
      ensures picked.Some? ==>
        drawn != [] && picked.value == drawn[|drawn| - 1] && picked.value in onDisk
        && forall i :: 0 <= i < |drawn| - 1 ==> drawn[i] !in onDisk
      ensures picked.None? && candidates != [] ==>
        |drawn| == pickRetryLimit && forall d :: d in drawn ==> d !in onDisk
      ensures candidates != [] && (forall c :: c in candidates ==> c in onDisk) ==> picked.Some?
      ensures picked.Some? ==> picked.value in candidates
      ensures picked.None? && candidates != [] ==> exists c :: c in candidates && c !in onDisk
      ensures forall t :: t in seeds ==> t in old(seeds)
      ensures forall t :: t in old(seeds) && t !in seeds ==> t in drawn && t in candidates && t !in onDisk
      ensures forall d :: d in drawn && d !in onDisk ==> d !in seeds
      ensures forall t :: t in old(seeds) && t in onDisk ==>
        t in seeds && FamilyOf(t) == old(FamilyOf(t)) && PickCount(t) == old(PickCount(t))
    {
      picked, drawn := None, [];
      if candidates == [] {
        return;
      }
      var attempt := 0;
      while attempt < pickRetryLimit
        invariant Valid()
        invariant attempt == |drawn| <= pickRetryLimit
        invariant forall d :: d in drawn ==> d in candidates && d !in onDisk && d !in seeds
        invariant forall t :: t in seeds ==> t in old(seeds)
        invariant forall t :: t in old(seeds) && t !in seeds ==> t in drawn
        invariant forall t :: t in old(seeds) && t in onDisk ==>
          t in seeds && FamilyOf(t) == old(FamilyOf(t)) && PickCount(t) == old(PickCount(t))
      {
        assert candidates[0] in candidates;
        var choice :| choice in candidates;
        drawn := drawn + [choice];
        if choice in onDisk {
          picked := Some(choice);
          return;
        }
        RemoveSeed(choice);
        attempt := attempt + 1;
      }
      assert drawn[0] in drawn;
    }

    /** `select`: build the candidate list once (computing the scores first
        for "ttdn_metric" when there are none yet), draw from it with retry,
        and record the pick that succeeds. The weighted draw of
        "ttdn_metric" and the uniform draw otherwise are both a choice from
        the candidates here. */
    method Select(strategy: string, wantPromoted: bool, onDisk: set<SeedPath>,
                  stats: map<SeedPath, (int, Metrics)>)
      returns (picked: Option<SeedPath>)
      requires Valid()
      modifies this`seeds, this`scores, this`promoted, this`pickCounts, this`seedFamily, this`recent,
               this`familyPickCounts, this`familyRecent, this`scoresInitialized, this`scoreCache
      ensures Valid()
      ensures old(EligibleSeeds()) == [] ==> picked.None?
      ensures picked.Some? ==> picked.value in old(Candidates(wantPromoted))
      ensures picked.Some? ==> picked.value in onDisk && picked.value in seeds
      ensures picked.Some? ==> PickCount(picked.value) == old(PickCount(picked.value)) + 1
      ensures old(EligibleSeeds()) != [] && (forall c :: c in old(Candidates(wantPromoted)) ==> c in onDisk) ==>
        picked.Some?
      ensures picked.None? && old(EligibleSeeds()) != [] ==>
        exists c :: c in old(Candidates(wantPromoted)) && c !in onDisk
      ensures forall t :: t in old(seeds) && t !in seeds ==> t in old(Candidates(wantPromoted)) && t !in onDisk
      ensures forall t :: t in seeds ==> t in old(seeds)
    {
      if seeds == [] {
        return None;
      }
      // Eligibility and the candidate pool do not depend on the scores, so
      // the pool is taken before scoring starts.
      var eligible := EligibleSeeds();
      var candidates := Candidates(wantPromoted);
      if strategy == "ttdn_metric" && scores == map[] {
        CalculateScores(stats);
      }
      if eligible == [] {
        return None;
      }
      picked := PickAndRecord(candidates, onDisk);
    }

    /** The draw with retry followed by `_record_pick` of a successful pick. */
    method PickAndRecord(candidates: seq<SeedPath>, onDisk: set<SeedPath>) returns (picked: Option<SeedPath>)
      requires Valid()
      requires forall t :: t in candidates ==> t in seeds
      modifies this`seeds, this`scores, this`promoted, this`pickCounts, this`seedFamily, this`recent,
               this`familyPickCounts, this`familyRecent
      ensures Valid()
      ensures candidates == [] ==> picked.None?
      ensures picked.Some? ==> picked.value in candidates && picked.value in onDisk && picked.value in seeds
      ensures picked.Some? ==> PickCount(picked.value) == old(PickCount(picked.value)) + 1
      ensures candidates != [] && (forall c :: c in candidates ==> c in onDisk) ==> picked.Some?
      ensures picked.None? && candidates != [] ==> exists c :: c in candidates && c !in onDisk
      ensures forall t :: t in old(seeds) && t !in seeds ==> t in candidates && t !in onDisk
      ensures forall t :: t in seeds ==> t in old(seeds)
    {
      ghost var drawn;
      picked, drawn := PickWithRetry(candidates, onDisk);
      if picked.Some? {
        RecordPick(picked.value);
      }
    }
  }
}
