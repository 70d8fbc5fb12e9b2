/** The projection-rewrite mutator: its collectors (the site count, the
    choice metrics and the flat choice list), its `mutate`, and the
    metadata run that picks one (site, candidate) entry and hands it to
    the applier. The collectors meet the file's types in the order and
    the context `ProjectionRewrite.FileOcc` lists them in. */
module ProjectionMutator {
  import opened Wrappers
  import opened Syntax
  import opened Ordering
  import Ttdn
  import opened ProjectionRewrite
  import opened ProjectionApplier
  import ConstraintMutator
  import Flatten

  // ---------------------------------------------------------------------
  // The replacement map of a file

  /** `m` is the replacement map of `file`: under the token text of the
      right-hand side of each of the file's associated-type bindings it
      files exactly the projections of the bindings with that text. */
  ghost predicate MapOfFile(file: File, m: map<string, seq<Candidate>>) {
    var bs := Ttdn.RawInfo(file).bindings;
    (forall key :: key in m <==> exists b :: b in bs && Tokens(b.rhs) == key) &&
    (forall key, c :: key in m ==> (c in m[key] <==> exists b :: b in bs && Tokens(b.rhs) == key && c == Projection(b)))
  }

  /** A binding of the file has one with the same key among the sorted,
      deduplicated bindings. */
  lemma SortedBindingOf(raw: seq<Ttdn.Binding>, sorted: seq<Ttdn.Binding>, b: Ttdn.Binding) returns (b': Ttdn.Binding)
    requires Keys(sorted, Ttdn.BindingKey) == Keys(raw, Ttdn.BindingKey) && b in raw
    ensures b' in sorted && Tokens(b'.rhs) == Tokens(b.rhs) && Projection(b') == Projection(b)
  {
    assert Ttdn.BindingKey(b) in Keys(raw, Ttdn.BindingKey);
    b' :| b' in sorted && Ttdn.BindingKey(b') == Ttdn.BindingKey(b);
    assert Ttdn.BindingKey(b')[3] == Ttdn.BindingKey(b)[3];
  }

  /** The map built from the sorted bindings is the map of the file. */
  lemma MapOfSortedBindings(file: File, sorted: seq<Ttdn.Binding>, m: map<string, seq<Candidate>>)
    requires forall b :: b in sorted ==> b in Ttdn.RawInfo(file).bindings
    requires Keys(sorted, Ttdn.BindingKey) == Keys(Ttdn.RawInfo(file).bindings, Ttdn.BindingKey)
    requires MapOf(sorted, m)
    ensures MapOfFile(file, m)
  {
    var raw := Ttdn.RawInfo(file).bindings;
    forall key, c
      ensures (key in m && c in m[key]) <==> exists b :: b in raw && Tokens(b.rhs) == key && c == Projection(b)
    {
      MapHoldsExactlyProjections(sorted, m, key, c);
      if b :| b in raw && Tokens(b.rhs) == key && c == Projection(b) {
        var b' := SortedBindingOf(raw, sorted, b);
      }
    }
    forall key
      ensures key in m <==> exists b :: b in raw && Tokens(b.rhs) == key
    {
      if key in m {
        assert m[key] == CandidatesFor(sorted, key) != [];
        assert m[key][0] in m[key];
      }
      if b :| b in raw && Tokens(b.rhs) == key {
        var b' := SortedBindingOf(raw, sorted, b);
        MapHoldsExactlyProjections(sorted, m, key, Projection(b'));
      }
    }
  }

  /** A file's map is empty exactly when the file binds no associated type. */
  lemma MapOfFileEmpty(file: File, m: map<string, seq<Candidate>>)
    requires MapOfFile(file, m)
    ensures m == map[] <==> Ttdn.RawInfo(file).bindings == []
  {
    var raw := Ttdn.RawInfo(file).bindings;
    if raw != [] {
      assert raw[0] in raw;
      assert Tokens(raw[0].rhs) in m;
    }
    if m != map[] {
      var key :| key in m;
    }
  }

  /** `build_replacement_map` over `TtdnInfo::from_file`. */
  method ReplacementMap(file: File) returns (m: map<string, seq<Candidate>>)
    ensures MapOfFile(file, m) && ProjectionsOnly(m)
    ensures m == map[] <==> Ttdn.RawInfo(file).bindings == []
  {
    var info := Ttdn.FromFile(file);
    m := BuildReplacementMap(info.bindings);
    MapOfProjections(info.bindings, m);
    MapOfSortedBindings(file, info.bindings, m);
    MapOfFileEmpty(file, m);
  }

  // ---------------------------------------------------------------------
  // What the collectors compute

  /** The collectors' numbering: only open sites count, and no draw is
      involved. */
  function CollectEnv(m: map<string, seq<Candidate>>): Env {
    Env(m, 0, OpenOnly)
  }

  /** The number of filtered candidates of an occurrence; zero unless its
      type is looked up in the map. */
  function Width(o: Occurrence, m: map<string, seq<Candidate>>): nat {
    if Matches(o.0, m) then |FilteredAt(o.0, o.1, m)| else 0
  }

  /** The sum of the widths of `os`. */
  function ChoiceSum(os: seq<Occurrence>, m: map<string, seq<Candidate>>): nat {
    if os == [] then 0 else ChoiceSum(os[..|os| - 1], m) + Width(os[|os| - 1], m)
  }

  /** One (site, candidate) choice: the site's index among the open sites
      in visiting order, the candidate's index among the site's filtered
      candidates, and their number. */
  datatype ChoiceEntry = ChoiceEntry(siteIndex: nat, localIndex: nat, localCount: nat)

  /** The entries of site `i` with `n` filtered candidates. */
  function SiteEntries(i: nat, n: nat): seq<ChoiceEntry> {
    seq(n, k requires 0 <= k < n => ChoiceEntry(i, k, n))
  }

  /** The choice entries of `os`: per open site, in visiting order, one
      entry per filtered candidate. */
  function Entries(os: seq<Occurrence>, m: map<string, seq<Candidate>>): seq<ChoiceEntry> {
    if os == [] then []
    else
      var n := |os| - 1;
      Entries(os[..n], m)
      + (if Open(os[n].0, os[n].1, m) then SiteEntries(Count(os[..n], CollectEnv(m)), Width(os[n], m)) else [])
  }

  /** Entries in visiting order: by site, then by local index. */
  predicate Precedes(a: ChoiceEntry, b: ChoiceEntry) {
    a.siteIndex < b.siteIndex || (a.siteIndex == b.siteIndex && a.localIndex < b.localIndex)
  }

  // ---------------------------------------------------------------------
  // Properties of the collectors' results

  /** Every open site has at least one candidate, so the choice sum is at
      least the number of sites. */
  lemma {:induction false} SumCoversSites(os: seq<Occurrence>, m: map<string, seq<Candidate>>)
    ensures Count(os, CollectEnv(m)) <= ChoiceSum(os, m)
  {
    if os != [] {
      SumCoversSites(os[..|os| - 1], m);
    }
  }

  /** The flat list has exactly as many entries as the choice sum. */
  lemma {:induction false} EntriesCount(os: seq<Occurrence>, m: map<string, seq<Candidate>>)
    ensures |Entries(os, m)| == ChoiceSum(os, m)
  {
    if os != [] {
      EntriesCount(os[..|os| - 1], m);
    }
  }

  /** Every entry names one of the sites and a candidate within that
      site's count. */
  lemma {:induction false} EntriesInRange(os: seq<Occurrence>, m: map<string, seq<Candidate>>)
    ensures forall i :: 0 <= i < |Entries(os, m)| ==>
              Entries(os, m)[i].siteIndex < Count(os, CollectEnv(m)) && Entries(os, m)[i].localIndex < Entries(os, m)[i].localCount
  {
    if os != [] {
      var n := |os| - 1;
      EntriesInRange(os[..n], m);
    }
  }

  /** The entries come in visiting order, each (site, candidate) pair once. */
  lemma {:induction false} EntriesOrdered(os: seq<Occurrence>, m: map<string, seq<Candidate>>)
    ensures forall i, j :: 0 <= i < j < |Entries(os, m)| ==> Precedes(Entries(os, m)[i], Entries(os, m)[j])
  {
    if os != [] {
      var n := |os| - 1;
      var e, e' := Entries(os[..n], m), Entries(os, m);
      EntriesOrdered(os[..n], m);
      EntriesInRange(os[..n], m);
      forall i, j | 0 <= i < j < |e'|
        ensures Precedes(e'[i], e'[j])
      {
        if j >= |e| {
          assert e'[j] == SiteEntries(Count(os[..n], CollectEnv(m)), Width(os[n], m))[j - |e|];
          if i < |e| {
            assert e'[i] == e[i];
          }
        } else {
          assert e'[i] == e[i] && e'[j] == e[j];
        }
      }
    }
  }

  /** With a site there is a choice: the choice list is never empty when
      the count is positive. */
  lemma EntriesCoverSites(os: seq<Occurrence>, m: map<string, seq<Candidate>>)
    ensures Count(os, CollectEnv(m)) <= |Entries(os, m)|
  {
    SumCoversSites(os, m);
    EntriesCount(os, m);
  }

  /** An empty map has no sites and no choices. */
  lemma {:induction false} NothingWithoutMap(os: seq<Occurrence>)
    ensures Count(os, CollectEnv(map[])) == 0 && ChoiceSum(os, map[]) == 0 && Entries(os, map[]) == []
  {
    if os != [] {
      NothingWithoutMap(os[..|os| - 1]);
    }
  }

  /** The counting does not depend on the draw. */
  lemma {:induction false} CountIgnoresDraw(os: seq<Occurrence>, m: map<string, seq<Candidate>>, d: nat)
    ensures Count(os, Env(m, d, OpenOnly)) == Count(os, CollectEnv(m))
  {
    if os != [] {
      CountIgnoresDraw(os[..|os| - 1], m, d);
    }
  }

  /** The applier's site count, whatever its draw, is the collectors' count. */
  lemma FileSites(file: File, m: map<string, seq<Candidate>>, d: nat)
    ensures ItemsSites(file, NoCtx, Env(m, d, OpenOnly)) == Count(FileOcc(file), CollectEnv(m))
  {
    ItemsSitesCount(file, NoCtx, Env(m, d, OpenOnly));
    CountIgnoresDraw(FileOcc(file), m, d);
  }

  // ---------------------------------------------------------------------
  // The collectors

  /** `ProjectionRewriteCollector::visit_type` over the visiting order: a
      path type in the map with a candidate other than the binding being
      visited adds one to the count. */
  method CountSites(os: seq<Occurrence>, m: map<string, seq<Candidate>>) returns (count: nat)
    ensures count == Count(os, CollectEnv(m))
  {
    count := 0;
    for i := 0 to |os|
      invariant count == Count(os[..i], CollectEnv(m))
    {
      assert os[..i + 1][..i] == os[..i];
      var (t, ctx) := os[i];
      if t.PathTy? && Tokens(t) in m && Filtered(m[Tokens(t)], ctx) != [] {
        count := count + 1;
      }
    }
    assert os[..|os|] == os;
  }

  /** `ProjectionChoiceMetrics`: the number of rewrite sites and the sum
      of their filtered candidate counts. */
  datatype ChoiceMetrics = ChoiceMetrics(rewriteSites: nat, rewriteChoiceSum: nat)

  /** `ProjectionChoiceCollector::visit_type` over the visiting order. */
  method Metrics(os: seq<Occurrence>, m: map<string, seq<Candidate>>) returns (metrics: ChoiceMetrics)
    ensures metrics == ChoiceMetrics(Count(os, CollectEnv(m)), ChoiceSum(os, m))
    ensures metrics.rewriteSites <= metrics.rewriteChoiceSum
  {
    metrics := ChoiceMetrics(0, 0);
    for i := 0 to |os|
      invariant metrics == ChoiceMetrics(Count(os[..i], CollectEnv(m)), ChoiceSum(os[..i], m))
    {
      assert os[..i + 1][..i] == os[..i];
      var (t, ctx) := os[i];
      if t.PathTy? && Tokens(t) in m {
        var n := |Filtered(m[Tokens(t)], ctx)|;
        if n > 0 {
          metrics := ChoiceMetrics(metrics.rewriteSites + 1, metrics.rewriteChoiceSum + n);
        }
      }
    }
    assert os[..|os|] == os;
    SumCoversSites(os, m);
  }

  /** The visitor of `collect_choice_entries` over the visiting order: at
      each open site it pushes one entry per filtered candidate, then moves
      the site index on. */
  method ChoiceEntries(os: seq<Occurrence>, m: map<string, seq<Candidate>>) returns (out: seq<ChoiceEntry>)
    ensures out == Entries(os, m)
  {
    out := [];
    var siteIndex: nat := 0;
    for i := 0 to |os|
      invariant siteIndex == Count(os[..i], CollectEnv(m))
      invariant out == Entries(os[..i], m)
    {
      assert os[..i + 1][..i] == os[..i];
      var (t, ctx) := os[i];
      if t.PathTy? && Tokens(t) in m {
        var localCount := |Filtered(m[Tokens(t)], ctx)|;
        if localCount > 0 {
          ghost var before := out;
          for idx := 0 to localCount
            invariant out == before + SiteEntries(siteIndex, localCount)[..idx]
          {
            assert SiteEntries(siteIndex, localCount)[..idx + 1]
                   == SiteEntries(siteIndex, localCount)[..idx] + [ChoiceEntry(siteIndex, idx, localCount)];
            out := out + [ChoiceEntry(siteIndex, idx, localCount)];
          }
          assert SiteEntries(siteIndex, localCount)[..localCount] == SiteEntries(siteIndex, localCount);
          siteIndex := siteIndex + 1;
        }
      }
    }
    assert os[..|os|] == os;
  }

  // ---------------------------------------------------------------------
  // The mutator

  /** `collect`: the number of rewrite sites of the file; none when the
      file binds no associated type. */
  method Collect(file: File) returns (count: nat, ghost m: map<string, seq<Candidate>>)
    ensures MapOfFile(file, m) && ProjectionsOnly(m)
    ensures count == Count(FileOcc(file), CollectEnv(m))
    ensures Ttdn.RawInfo(file).bindings == [] ==> count == 0
  {
    var repl := ReplacementMap(file);
    m := repl;
    if repl == map[] {
      NothingWithoutMap(FileOcc(file));
      return 0, m;
    }
    count := CountSites(FileOcc(file), repl);
  }

  /** `projection_choice_metrics`: no sites and a zero sum without a map;
      otherwise the sites and the choice sum, the sum covering the sites. */
  method ProjectionChoiceMetrics(file: File) returns (metrics: ChoiceMetrics, ghost m: map<string, seq<Candidate>>)
    ensures MapOfFile(file, m) && ProjectionsOnly(m)
    ensures metrics == ChoiceMetrics(Count(FileOcc(file), CollectEnv(m)), ChoiceSum(FileOcc(file), m))
    ensures metrics.rewriteSites <= metrics.rewriteChoiceSum
  {
    var repl := ReplacementMap(file);
    m := repl;
    if repl == map[] {
      NothingWithoutMap(FileOcc(file));
      return ChoiceMetrics(0, 0), m;
    }
    metrics := Metrics(FileOcc(file), repl);
  }

  /** `collect_choice_entries`: the flat choice list, empty without a map. */
  method CollectChoiceEntries(file: File) returns (flat: seq<ChoiceEntry>, ghost m: map<string, seq<Candidate>>)
    ensures MapOfFile(file, m) && ProjectionsOnly(m)
    ensures flat == Entries(FileOcc(file), m)
    ensures |flat| == ChoiceSum(FileOcc(file), m)
  {
    var repl := ReplacementMap(file);
    m := repl;
    if repl == map[] {
      NothingWithoutMap(FileOcc(file));
      return [], m;
    }
    flat := ChoiceEntries(FileOcc(file), repl);
    EntriesCount(FileOcc(file), repl);
  }

  /** `mutate`: a fresh applier with the random number `draw` rewrites
      site `index` of the file. It reports a mutation exactly when the
      file changed, which is exactly when `index` is one of the sites, and
      at most one item of the file changes. */
  method Mutate(file: File, index: nat, draw: nat)
    returns (r: File, mutated: bool, ghost m: map<string, seq<Candidate>>, ghost changed: nat)
    ensures MapOfFile(file, m) && ProjectionsOnly(m)
    ensures r == RewriteItems(file, index, NoCtx, Env(m, draw, OpenOnly))
    ensures mutated <==> r != file
    ensures mutated <==> index < Count(FileOcc(file), CollectEnv(m))
    ensures r == file || (changed < |file| && r == file[changed := r[changed]])
  {
    var repl := ReplacementMap(file);
    m := repl;
    FileSites(file, repl, draw);
    ItemsChangedIff(file, index, NoCtx, Env(repl, draw, OpenOnly));
    changed := AtMostOneItemChanges(file, index, NoCtx, Env(repl, draw, OpenOnly));
    if repl == map[] {
      NothingWithoutMap(FileOcc(file));
      return file, false, m, changed;
    }
    var a := new Applier(index, repl, None, draw, 0, 0);
    r := a.VisitFile(file);
    mutated := a.mutated;
  }

  /** `run_with_meta_and_choice`. With no site the file is left alone and
      everything reported is zero; with sites but an empty choice list the
      site count alone is reported. Otherwise the requested entry (a random
      one when the request is missing or out of range) is applied: the
      applier rewrites the entry's site with the entry's candidate, the
      file always changes, and it changes in one item only. */
  method RunWithMetaAndChoice(file: File, forced: Option<nat>, choiceIndex: Option<nat>)
    returns (r: File, meta: ConstraintMutator.Meta, ghost m: map<string, seq<Candidate>>, ghost flat: seq<ChoiceEntry>,
             ghost changed: nat)
    ensures MapOfFile(file, m) && ProjectionsOnly(m)
    ensures Count(FileOcc(file), CollectEnv(m)) == 0 ==> r == file && meta == ConstraintMutator.Meta(false, 0, 0, 0, 0)
    ensures Count(FileOcc(file), CollectEnv(m)) > 0 ==> flat == Entries(FileOcc(file), m)
    ensures Count(FileOcc(file), CollectEnv(m)) > 0 && flat == [] ==>
              r == file && meta == ConstraintMutator.Meta(false, 0, Count(FileOcc(file), CollectEnv(m)), 0, 0)
    ensures Count(FileOcc(file), CollectEnv(m)) > 0 && flat != [] ==>
              && meta.siteCount == Count(FileOcc(file), CollectEnv(m))
              && meta.choiceCount == |flat| && meta.choiceIndex < |flat|
              && (ConstraintMutator.Requested(forced, choiceIndex).Some?
                  && ConstraintMutator.Requested(forced, choiceIndex).value < |flat| ==>
                    meta.choiceIndex == ConstraintMutator.Requested(forced, choiceIndex).value)
              && meta.siteIndex == flat[meta.choiceIndex].siteIndex < meta.siteCount
              && r == RewriteItems(file, meta.siteIndex, NoCtx, Env(m, flat[meta.choiceIndex].localIndex, OpenOnly))
              && meta.mutated && r != file
              && changed < |file| && r == file[changed := r[changed]]
  {
    var repl := ReplacementMap(file);
    m := repl;
    var siteCount: nat := 0;
    if repl != map[] {
      siteCount := CountSites(FileOcc(file), repl);
    } else {
      NothingWithoutMap(FileOcc(file));
    }
    if siteCount == 0 {
      return file, ConstraintMutator.Meta(false, 0, 0, 0, 0), m, [], 0;
    }
    var choices := ChoiceEntries(FileOcc(file), repl);
    flat := choices;
    var choiceCount := |choices|;
    if choiceCount == 0 {
      return file, ConstraintMutator.Meta(false, 0, siteCount, 0, 0), m, flat, 0;
    }
    var idx: nat;
    match ConstraintMutator.Requested(forced, choiceIndex) {
      case Some(i) =>
        if i < choiceCount {
          idx := i;
        } else {
          idx :| idx < choiceCount;
        }
      case None =>
        idx :| idx < choiceCount;
    }
    var entry := choices[idx];
    EntriesInRange(FileOcc(file), repl);
    FileSites(file, repl, entry.localIndex);
    var a := new Applier(entry.siteIndex, repl, Some(entry.localIndex), 0, entry.localCount, entry.localIndex);
    r := a.VisitFile(file);
    meta := ConstraintMutator.Meta(a.mutated, entry.siteIndex, siteCount, choiceCount, idx);
    ItemsChangedIff(file, entry.siteIndex, NoCtx, Env(repl, entry.localIndex, OpenOnly));
    changed := AtMostOneItemChanges(file, entry.siteIndex, NoCtx, Env(repl, entry.localIndex, OpenOnly));
  }

  // ---------------------------------------------------------------------
  // The applier's counter as written

  /** `impl Tr for S { type A = u32; }` followed by `fn f(x: u32)`. */
  const Witness: File := [
    ImplDef(NoGenerics, Some(TraitRef(["Tr"], [])), IdentTy("S"), [AssocTypeDef("A", NoGenerics, IdentTy("u32"))]),
    FnDef(Signature("f", NoGenerics, [Typed(IdentTy("u32"))], None), Block([]))
  ]

  /** The replacement map of `Witness`: `u32` goes to `<S as Tr>::A`. */
  const WitnessMap: map<string, seq<Candidate>> :=
    map["u32" := [Projection(Ttdn.Binding("S", "Tr", "A", IdentTy("u32")))]]

  /** The one binding of `Witness`. */
  const WitnessBinding := Ttdn.Binding("S", "Tr", "A", IdentTy("u32"))

  /** The contexts of the impl block and of its `type A`. */
  const ImplContext := Ctx(Some("S"), Some("Tr"), None)
  const AssocContext := Ctx(Some("S"), Some("Tr"), Some("A"))

  lemma WitnessBindings()
    ensures Ttdn.RawInfo(Witness).bindings == [WitnessBinding]
  {
    assert TyIdent(IdentTy("S")) == Some("S");
    assert Ttdn.ImplEdge(Witness[0]) == Some(("S", "Tr"));
    var ms := Witness[0].implMembers;
    assert Flatten.FlatMap(ms[..0], Ttdn.BindingOf("S", "Tr")) == [];
    assert ms[..|ms| - 1] == ms[..0];
    assert Ttdn.ItemBindings(Witness[0]) == [WitnessBinding];
    assert Ttdn.ItemBindings(Witness[1]) == [];
    assert Witness[..1][..0] == [];
    assert Witness[..|Witness| - 1] == Witness[..1];
    assert Flatten.FlatMap(Witness[..1], Ttdn.ItemBindings) == [WitnessBinding];
  }

  lemma WitnessMapIsItsMap()
    ensures MapOfFile(Witness, WitnessMap) && ProjectionsOnly(WitnessMap)
  {
    WitnessBindings();
    assert Tokens(IdentTy("u32")) == "u32";
  }

  /** The types of `Witness` in visiting order: the impl's self type, the
      binding's right-hand side, the function's argument type. */
  lemma WitnessOcc()
    ensures FileOcc(Witness) == [(IdentTy("S"), ImplContext), (IdentTy("u32"), AssocContext), (IdentTy("u32"), NoCtx)]
  {
    assert ImplCtx(Witness[0], NoCtx) == ImplContext by {
      assert TyIdent(IdentTy("S")) == Some("S");
    }
    var it := Witness[0];
    assert AssocCtx(ImplContext, "A") == AssocContext;
    assert TyOcc(IdentTy("S"), ImplContext) == [(IdentTy("S"), ImplContext)];
    assert TyOcc(IdentTy("u32"), AssocContext) == [(IdentTy("u32"), AssocContext)];
    assert ImplMembersOcc(it.implMembers, ImplContext) == [(IdentTy("u32"), AssocContext)] by {
      assert it.implMembers[1..] == [];
    }
    assert ImplOcc(it, ImplContext) == [(IdentTy("S"), ImplContext), (IdentTy("u32"), AssocContext)];
    assert ItemOcc(Witness[0], NoCtx) == [(IdentTy("S"), ImplContext), (IdentTy("u32"), AssocContext)];
    var sig := Witness[1].sig;
    assert ArgsOcc(sig.inputs, NoCtx) == [(IdentTy("u32"), NoCtx)] by {
      assert sig.inputs[1..] == [];
      assert TyOcc(IdentTy("u32"), NoCtx) == [(IdentTy("u32"), NoCtx)];
    }
    assert SigOcc(sig, NoCtx) == [(IdentTy("u32"), NoCtx)];
    assert ItemOcc(Witness[1], NoCtx) == [(IdentTy("u32"), NoCtx)];
    assert Witness[1..][0] == Witness[1] && Witness[1..][1..] == [];
    assert ItemsOcc(Witness[1..], NoCtx) == [(IdentTy("u32"), NoCtx)];
  }

  /** The collectors see one site, the function's `u32`, with one choice. */
  lemma WitnessChoices()
    ensures Count(FileOcc(Witness), CollectEnv(WitnessMap)) == 1
    ensures Entries(FileOcc(Witness), WitnessMap) == [ChoiceEntry(0, 0, 1)]
  {
    WitnessOcc();
    var os := FileOcc(Witness);
    var p := WitnessMap["u32"][0];
    assert Tokens(IdentTy("u32")) == "u32" && Tokens(IdentTy("S")) == "S";
    assert OwnBinding(p, AssocContext) && !OwnBinding(p, NoCtx);
    assert Filtered(WitnessMap["u32"], AssocContext) == [];
    assert Filtered(WitnessMap["u32"], NoCtx) == [p];
    assert os[..2][..1] == os[..1] && os[..1][..0] == [];
    assert !Open(os[0].0, os[0].1, WitnessMap) && !Open(os[1].0, os[1].1, WitnessMap);
    assert Count(os[..1], CollectEnv(WitnessMap)) == 0;
    assert Count(os[..2], CollectEnv(WitnessMap)) == 0;
    assert Entries(os[..1], WitnessMap) == [];
    assert Entries(os[..2], WitnessMap) == [];
    assert SiteEntries(0, 1) == [ChoiceEntry(0, 0, 1)];
  }

  /** The applier as written, sent to site 0, meets the binding's own
      right-hand side first: it is counted, nothing is left after
      filtering, and the file comes back unchanged. */
  lemma WitnessAsWritten(d: nat)
    ensures RewriteItems(Witness, 0, NoCtx, Env(WitnessMap, d, EveryMatch)) == Witness
  {
    var env := Env(WitnessMap, d, EveryMatch);
    var it := Witness[0];
    var m := it.implMembers[0];
    assert Tokens(IdentTy("u32")) == "u32";
    assert Filtered(WitnessMap["u32"], AssocContext) == [];
    assert ImplCtx(it, NoCtx) == ImplContext by {
      assert TyIdent(IdentTy("S")) == Some("S");
    }
    assert AssocCtx(ImplContext, "A") == AssocContext;
    assert TySites(IdentTy("u32"), AssocContext, env) == 1;
    assert RewriteTy(IdentTy("u32"), 0, AssocContext, env) == IdentTy("u32");
    assert RewriteImplMember(m, 0, ImplContext, env) == m;
    assert RewriteImplMembers(it.implMembers, 0, ImplContext, env) == it.implMembers by {
      assert it.implMembers[1..] == [];
    }
    assert RewriteItem(it, 0, NoCtx, env) == it;
    assert ItemSites(it, NoCtx, env) >= 1;
    assert RewriteItems(Witness[1..], 0 - ItemSites(it, NoCtx, env), NoCtx, env) == Witness[1..];
  }

  /** The collectors count the function's `u32` as site 0, with one
      choice. The applier as written advances its counter on every type
      found in the map, so sent to site 0 it stops at the binding's own
      right-hand side and returns the file unchanged; under the
      collectors' numbering site 0 is rewritten. */
  lemma EveryMatchMissesSite(d: nat)
    ensures MapOfFile(Witness, WitnessMap)
    ensures Count(FileOcc(Witness), CollectEnv(WitnessMap)) == 1
    ensures Entries(FileOcc(Witness), WitnessMap) == [ChoiceEntry(0, 0, 1)]
    ensures RewriteItems(Witness, 0, NoCtx, Env(WitnessMap, d, EveryMatch)) == Witness
    ensures RewriteItems(Witness, 0, NoCtx, Env(WitnessMap, d, OpenOnly)) != Witness
  {
    WitnessMapIsItsMap();
    WitnessChoices();
    WitnessAsWritten(d);
    FileSites(Witness, WitnessMap, d);
    ItemsChangedIff(Witness, 0, NoCtx, Env(WitnessMap, d, OpenOnly));
  }
}
