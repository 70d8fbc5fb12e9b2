/** The constraint-injection mutator: its collector, its `mutate`, and the
    metadata run that flattens the (site, candidate) choice space of a file,
    picks one entry and hands it to the applier. */
module ConstraintMutator {
  import opened Wrappers
  import opened Syntax
  import opened Ttdn
  import opened ConstraintInjection
  import opened ConstraintApplier

  /** `MAX_CONSTRAINT_SITES`; the choice space is refused beyond a hundred
      times this. */
  const MaxConstraintSites: nat := 5000

  // ---------------------------------------------------------------------
  // The flat choice list

  /** One (site, candidate) choice: the site's index in visiting order, the
      candidate's index among the site's candidates, the site's kind and
      its number of candidates. */
  datatype ChoiceEntry = ChoiceEntry(siteIndex: nat, localIndex: nat, kind: SiteKind, localCount: nat)

  /** The entries of site `i` of kind `kind` with `n` candidates. */
  function SiteEntries(i: nat, kind: SiteKind, n: nat): seq<ChoiceEntry> {
    seq(n, k requires 0 <= k < n => ChoiceEntry(i, k, kind, n))
  }

  /** The per-site entry lists of `sites`, whose candidate counts are
      `counts`, flattened in visiting order. */
  function Entries(sites: seq<Site>, counts: seq<nat>): seq<ChoiceEntry>
    requires |counts| == |sites|
  {
    if sites == [] then []
    else
      var n := |sites| - 1;
      Entries(sites[..n], counts[..n]) + SiteEntries(n, KindOf(sites[n]), counts[n])
  }

  function Total(counts: seq<nat>): nat {
    if counts == [] then 0 else Total(counts[..|counts| - 1]) + counts[|counts| - 1]
  }

  /** `e` is a choice at one of `sites`: its kind and count are that
      site's and its local index is below the count. */
  ghost predicate EntryOf(e: ChoiceEntry, sites: seq<Site>, counts: seq<nat>)
    requires |counts| == |sites|
  {
    e.siteIndex < |sites| && e.kind == KindOf(sites[e.siteIndex])
    && e.localCount == counts[e.siteIndex] && e.localIndex < e.localCount
  }

  /** Entries in visiting order: by site, then by local index. */
  predicate Precedes(a: ChoiceEntry, b: ChoiceEntry) {
    a.siteIndex < b.siteIndex || (a.siteIndex == b.siteIndex && a.localIndex < b.localIndex)
  }

  /** The flat list has one entry per (site, local index) pair and nothing
      else, so its length is the sum of the counts; a site without
      candidates contributes nothing, yet the next site's index still
      advances past it. */
  lemma {:induction false} EntriesMembers(sites: seq<Site>, counts: seq<nat>)
    requires |counts| == |sites|
    ensures |Entries(sites, counts)| == Total(counts)
    ensures forall e :: e in Entries(sites, counts) <==> EntryOf(e, sites, counts)
    decreases |sites|
  {
    if sites != [] {
      var n := |sites| - 1;
      var p, s := Entries(sites[..n], counts[..n]), SiteEntries(n, KindOf(sites[n]), counts[n]);
      EntriesMembers(sites[..n], counts[..n]);
      assert counts[..n] == counts[..|counts| - 1];
      forall e
        ensures e in p + s <==> EntryOf(e, sites, counts)
      {
        if e in s {
          var k :| 0 <= k < |s| && s[k] == e;
        }
        if EntryOf(e, sites, counts) && e.siteIndex == n {
          assert s[e.localIndex] == e;
        }
      }
    }
  }

  /** The flat list is in visiting order without repeats. */
  lemma {:induction false} EntriesOrdered(sites: seq<Site>, counts: seq<nat>)
    requires |counts| == |sites|
    ensures forall a, b :: 0 <= a < b < |Entries(sites, counts)| ==> Precedes(Entries(sites, counts)[a], Entries(sites, counts)[b])
    decreases |sites|
  {
    if sites != [] {
      var n := |sites| - 1;
      var p, s := Entries(sites[..n], counts[..n]), SiteEntries(n, KindOf(sites[n]), counts[n]);
      EntriesOrdered(sites[..n], counts[..n]);
      EntriesMembers(sites[..n], counts[..n]);
      forall a, b | 0 <= a < b < |p + s|
        ensures Precedes((p + s)[a], (p + s)[b])
      {
        if b < |p| {
          assert (p + s)[a] == p[a] && (p + s)[b] == p[b];
        } else if a < |p| {
          assert (p + s)[a] == p[a] && p[a] in p;
        }
      }
    }
  }

  // ---------------------------------------------------------------------
  // Candidate counts

  /** `n` distinct predicates are exactly the where-candidates of an impl
      with generics `g`. */
  ghost predicate WhereCount(g: Generics, info: TtdnInfo, n: nat) {
    exists cs: seq<WherePred> :: Distinct(cs) && |cs| == n && forall q :: q in cs <==> WhereCandidate(q, g, info)
  }

  /** `n` is the number of candidates of site `s` as far as the choice
      list needs it: exact for a bound site, and positive for a where site
      exactly when the impl has a where-candidate. */
  ghost predicate CountOf(s: Site, info: TtdnInfo, n: nat) {
    (n > 0 <==> SiteOpen(s, info)) && (!s.WhereSite? ==> n == |SiteCandidates(s, info.traits)|)
  }

  /** A where site's count, being the length of a list holding each
      where-candidate once, is positive exactly when there is one. */
  lemma WhereCountOpen(g: Generics, info: TtdnInfo, n: nat)
    requires WhereCount(g, info, n)
    ensures n > 0 <==> HasWhereCandidate(g, info)
  {
    var cs :| Distinct(cs) && |cs| == n && forall q :: q in cs <==> WhereCandidate(q, g, info);
    if n > 0 {
      assert cs[0] in cs;
    }
    if HasWhereCandidate(g, info) {
      var q :| WhereCandidate(q, g, info);
      assert q in cs;
    }
  }

  /** The candidates of one site, as `supertrait_candidates`,
      `where_predicate_candidates`, `generic_bound_candidates` and
      `assoc_bound_candidates` compute them, counted. */
  method SiteCount(s: Site, info: TtdnInfo) returns (n: nat)
    ensures s.WhereSite? ==> WhereCount(s.generics, info, n)
    ensures CountOf(s, info, n)
  {
    if s.WhereSite? {
      var cands := WhereCandidates(s.generics, s.selfTy, info);
      n := |cands|;
      assert Distinct(cands) && |cands| == n && forall q :: q in cands <==> WhereCandidate(q, s.generics, info);
      WhereCountOpen(s.generics, info, n);
    } else {
      var cands := CandidateBounds(info.traits, SiteBounds(s), OwnOf(s));
      n := |cands|;
    }
  }

  /** The flat list grows by the next site's entries. */
  lemma EntriesSnoc(sites: seq<Site>, counts: seq<nat>, n: nat)
    requires |counts| < |sites|
    ensures Entries(sites[..|counts| + 1], counts + [n])
            == Entries(sites[..|counts|], counts) + SiteEntries(|counts|, KindOf(sites[|counts|]), n)
  {
    var i := |counts|;
    assert sites[..i + 1][..i] == sites[..i] && (counts + [n])[..i] == counts;
  }

  /** `counts` are the candidate counts of `sites`, site by site. */
  ghost predicate CountsOf(sites: seq<Site>, counts: seq<nat>, info: TtdnInfo)
    decreases |sites|
  {
    |counts| == |sites|
    && (sites != [] ==>
          var n := |sites| - 1;
          CountsOf(sites[..n], counts[..n], info) && CountOf(sites[n], info, counts[n]))
  }

  lemma {:induction false} CountsOfAt(sites: seq<Site>, counts: seq<nat>, info: TtdnInfo)
    requires CountsOf(sites, counts, info)
    ensures forall i :: 0 <= i < |counts| ==> CountOf(sites[i], info, counts[i])
    decreases |sites|
  {
    if sites != [] {
      var n := |sites| - 1;
      CountsOfAt(sites[..n], counts[..n], info);
      forall i | 0 <= i < n
        ensures CountOf(sites[i], info, counts[i])
      {
        assert sites[..n][i] == sites[i] && counts[..n][i] == counts[i];
      }
    }
  }

  /** The collection loop's step: site `i` is counted with `n`. */
  lemma CountsStep(sites: seq<Site>, i: nat, counts: seq<nat>, info: TtdnInfo, n: nat)
    requires i < |sites| && CountsOf(sites[..i], counts, info) && CountOf(sites[i], info, n)
    ensures CountsOf(sites[..i + 1], counts + [n], info)
    ensures Entries(sites[..i + 1], counts + [n]) == Entries(sites[..i], counts) + SiteEntries(i, KindOf(sites[i]), n)
  {
    EntriesSnoc(sites, counts, n);
    assert sites[..i + 1][..i] == sites[..i] && (counts + [n])[..i] == counts;
  }

  /** `collect_sites_with_candidates_for_choice` flattened: per site in
      visiting order, one entry per candidate. */
  method CollectChoices(file: File, info: TtdnInfo) returns (flat: seq<ChoiceEntry>, ghost counts: seq<nat>)
    ensures |counts| == |ConstraintSites(file)|
    ensures forall i :: 0 <= i < |counts| ==> CountOf(ConstraintSites(file)[i], info, counts[i])
    ensures flat == Entries(ConstraintSites(file), counts)
  {
    var sites := ConstraintSites(file);
    flat, counts := [], [];
    for i := 0 to |sites|
      invariant CountsOf(sites[..i], counts, info)
      invariant flat == Entries(sites[..i], counts)
    {
      var n := SiteCount(sites[i], info);
      CountsStep(sites, i, counts, info, n);
      flat := flat + SiteEntries(i, KindOf(sites[i]), n);
      counts := counts + [n];
    }
    assert sites[..|sites|] == sites;
    CountsOfAt(sites, counts, info);
  }

  // ---------------------------------------------------------------------
  // The mutator

  /** `collect`: one site per trait, impl, type parameter and associated
      type, in visiting order. */
  function Collect(file: File): (n: nat)
    ensures n == 0 <==> forall it :: it in file ==> ItemSites(it) == []
  {
    FlatMapEmpty(file);
    |ConstraintSites(file)|
  }

  lemma FlatMapEmpty(file: File)
    ensures ConstraintSites(file) == [] <==> forall it :: it in file ==> ItemSites(it) == []
  {
    forall it | it in file && ConstraintSites(file) == []
      ensures ItemSites(it) == []
    {
      var i :| 0 <= i < |file| && file[i] == it;
      if ItemSites(it) != [] {
        Flatten.FlatMapMember(file, ItemSites, ItemSites(it)[0]);
      }
    }
    if ConstraintSites(file) != [] {
      Flatten.FlatMapMember(file, ItemSites, ConstraintSites(file)[0]);
    }
  }

  /** `mutate`: a fresh applier with a random candidate at each site
      injects at site `index` of the file, changing that site only, and
      reports a mutation exactly when that site has something to inject. */
  method Mutate(file: File, index: nat) returns (r: File, mutated: bool, ghost info: TtdnInfo, ghost idx: nat, ghost wp: Option<WherePred>)
    ensures forall n :: n in info.traits <==> n in RawInfo(file).traits
    ensures Injects(ConstraintSites(file), ConstraintSites(r), index, info.traits, idx, wp)
    ensures mutated == (r != file)
    ensures mutated == (index < |ConstraintSites(file)| && SiteOpen(ConstraintSites(file)[index], info))
  {
    var ti := FromFile(file);
    info := ti;
    var a := new Applier(index, ti, None, 0, 0);
    r := a.VisitFile(file);
    mutated, idx, wp := a.mutated, a.chosen, a.injected;
  }

  /** The metadata `run_with_meta_and_constraint` reports: whether the file
      changed, the site injected at, the number of sites, the size of the
      choice space and the chosen entry's index in it. */
  datatype Meta = Meta(mutated: bool, siteIndex: nat, siteCount: nat, choiceCount: nat, choiceIndex: nat)

  /** The entry index `run_with_meta_and_constraint` asks for: the
      constraint index if given, else the forced index. */
  function Requested(forced: Option<nat>, constraintIndex: Option<nat>): Option<nat> {
    if constraintIndex.Some? then constraintIndex else forced
  }

  /** `run_with_meta_and_constraint`. With no site, or a choice space that
      is empty or over a hundred times `MaxConstraintSites`, the file is
      left alone. Otherwise the requested entry (a random one when the
      request is missing or out of range) is injected: the file changes at
      that entry's site and nowhere else, and it always changes. */
  method RunWithMetaAndConstraint(file: File, forced: Option<nat>, constraintIndex: Option<nat>)
    returns (r: File, meta: Meta, ghost info: TtdnInfo, ghost flat: seq<ChoiceEntry>, ghost counts: seq<nat>,
             ghost idx: nat, ghost wp: Option<WherePred>)
    ensures Collect(file) == 0 ==> r == file && meta == Meta(false, 0, 0, 0, 0)
    ensures Collect(file) > 0 ==> |counts| == Collect(file) && flat == Entries(ConstraintSites(file), counts)
    ensures Collect(file) > 0 ==> forall i :: 0 <= i < |counts| ==> CountOf(ConstraintSites(file)[i], info, counts[i])
    ensures Collect(file) > 0 && (|flat| == 0 || |flat| > MaxConstraintSites * 100) ==>
              r == file && meta == Meta(false, 0, Collect(file), 0, 0)
    ensures Collect(file) > 0 && 0 < |flat| <= MaxConstraintSites * 100 ==>
              && meta.siteCount == Collect(file) && meta.choiceCount == |flat| && meta.choiceIndex < |flat|
              && (Requested(forced, constraintIndex).Some? && Requested(forced, constraintIndex).value < |flat| ==>
                    meta.choiceIndex == Requested(forced, constraintIndex).value)
              && meta.siteIndex == flat[meta.choiceIndex].siteIndex
              && Injects(ConstraintSites(file), ConstraintSites(r), meta.siteIndex, info.traits, idx, wp)
              && meta.mutated && r != file
  {
    var siteCount := Collect(file);
    if siteCount == 0 {
      return file, Meta(false, 0, 0, 0, 0), RawInfo(file), [], [], 0, None;
    }
    var ti := FromFile(file);
    var choices;
    choices, counts := CollectChoices(file, ti);
    info, flat := ti, choices;
    var choiceCount := |choices|;
    if choiceCount > MaxConstraintSites * 100 || choiceCount == 0 {
      return file, Meta(false, 0, siteCount, 0, 0), info, flat, counts, 0, None;
    }
    var choiceIndex: nat;
    match Requested(forced, constraintIndex) {
      case Some(i) =>
        if i < choiceCount {
          choiceIndex := i;
        } else {
          choiceIndex :| choiceIndex < choiceCount;
        }
      case None =>
        choiceIndex :| choiceIndex < choiceCount;
    }
    var entry := choices[choiceIndex];
    EntriesMembers(ConstraintSites(file), counts);
    assert entry in flat;
    var a := new Applier(entry.siteIndex, ti, Some(entry.localIndex), entry.localCount, entry.localIndex);
    r := a.VisitFile(file);
    meta := Meta(a.mutated, entry.siteIndex, siteCount, choiceCount, choiceIndex);
    idx, wp := a.chosen, a.injected;
  }
}
