/** The heuristic that keeps seeds relying on rustc-internal features out of
    the corpus, in its two copies (the seed selector and the rust-analyzer
    fixture importer), and the importer's copy loop. File contents are
    inputs; `None` stands for a file that could not be read. */
module SeedFilter {
  import opened Wrappers
  import opened Text

  /** Only this many leading characters are inspected. */
  const HEAD_LIMIT := 8000

  function Head(text: string): (h: string)
    ensures |h| <= HEAD_LIMIT && |h| <= |text| && h == text[..|h|]
    ensures |text| <= HEAD_LIMIT ==> h == text
  {
    if |text| <= HEAD_LIMIT then text else text[..HEAD_LIMIT]
  }

  predicate HasInternalFeature(head: string) {
    Contains(head, "rustc_attrs") || Contains(head, "lang_items") || Contains(head, "intrinsics")
    || Contains(head, "core_intrinsics") || Contains(head, "rustc_private")
  }

  predicate HasInternalAttribute(head: string) {
    Contains(head, "#[rustc_") || Contains(head, "#![rustc_") || Contains(head, "#[lang =")
    || Contains(head, "#![no_core]") || Contains(head, "#![rustc_attrs]")
  }

  /** `_is_internal_only_seed_text` of the fixture importer. */
  predicate IsInternalOnlyText(head: string) {
    (Contains(head, "#![feature(") && HasInternalFeature(head))
    || HasInternalAttribute(head)
    || Contains(head, "extern \"rust-intrinsic\"")
  }

  /** `SeedSelector._is_internal_only_seed`: an unreadable file is kept. */
  predicate SeedIsInternalOnly(text: Option<string>) {
    match text
    case None => false
    case Some(t) =>
      var head := Head(t);
      if Contains(head, "#![feature(") && HasInternalFeature(head) then true
      else if HasInternalAttribute(head) then true
      else Contains(head, "extern \"rust-intrinsic\"")
  }

  /** The two copies agree on every readable file, and an unreadable file
      is kept by the selector as it is by the importer, which reads it as
      empty text. */
  lemma CopiesAgree(text: Option<string>)
    ensures SeedIsInternalOnly(text) == IsInternalOnlyText(Head(text.GetOr("")))
  {
    if text.None? {
      assert !Contains("", "#[rustc_") && !Contains("", "#![rustc_") && !Contains("", "#[lang =");
      assert !Contains("", "#![no_core]") && !Contains("", "#![rustc_attrs]");
      assert !Contains("", "extern \"rust-intrinsic\"") && !Contains("", "#![feature(");
    }
  }

  /** Text past the first 8000 characters never changes the verdict. */
  lemma OnlyHeadMatters(t: string, tail: string)
    requires |t| >= HEAD_LIMIT
    ensures SeedIsInternalOnly(Some(t + tail)) == SeedIsInternalOnly(Some(t))
  {
    assert Head(t + tail) == Head(t);
  }

  /** Adding text after a head that is already internal-only keeps it so. */
  lemma {:induction false} InternalOnlyExtends(a: string, b: string)
    requires IsInternalOnlyText(a)
    ensures IsInternalOnlyText(a + b)
  {
    ContainsAppend(a, b, "rustc_attrs");
    ContainsAppend(a, b, "lang_items");
    ContainsAppend(a, b, "intrinsics");
    ContainsAppend(a, b, "core_intrinsics");
    ContainsAppend(a, b, "rustc_private");
    ContainsAppend(a, b, "#[rustc_");
    ContainsAppend(a, b, "#![rustc_");
    ContainsAppend(a, b, "#[lang =");
    ContainsAppend(a, b, "#![no_core]");
    ContainsAppend(a, b, "#![rustc_attrs]");
    ContainsAppend(a, b, "extern \"rust-intrinsic\"");
    ContainsAppend(a, b, "#![feature(");
  }

  /** `list(dict.fromkeys(xs))` continued past the keys already `seen`. */
  function DedupFrom(xs: seq<string>, seen: set<string>): (r: seq<string>)
    ensures forall x :: x in r <==> x in xs && x !in seen
    ensures forall i, j :: 0 <= i < j < |r| ==> r[i] != r[j]
  {
    if xs == [] then []
    else if xs[0] in seen then DedupFrom(xs[1..], seen)
    else [xs[0]] + DedupFrom(xs[1..], seen + {xs[0]})
  }

  /** `list(dict.fromkeys(xs))`: the same elements, each once. */
  function Dedup(xs: seq<string>): (r: seq<string>)
    ensures forall x :: x in r <==> x in xs
    ensures forall i, j :: 0 <= i < j < |r| ==> r[i] != r[j]
  {
    DedupFrom(xs, {})
  }

  /** Index of the first occurrence of `x` in `xs`. */
  function FirstIndex(xs: seq<string>, x: string): (i: nat)
    requires x in xs
    ensures i < |xs| && xs[i] == x && x !in xs[..i]
  {
    if xs[0] == x then 0
    else
      var k := FirstIndex(xs[1..], x);
      assert xs[..k + 1] == [xs[0]] + xs[1..][..k];
      k + 1
  }

  /** Every element of `r` occurs in `xs`, and `r` lists them in the order of
      their first occurrences in `xs`. */
  predicate FirstSeenOrder(xs: seq<string>, r: seq<string>) {
    (forall x :: x in r ==> x in xs)
    && forall i, j :: 0 <= i < j < |r| ==> FirstIndex(xs, r[i]) < FirstIndex(xs, r[j])
  }

  /** The first-seen order is kept: elements come out in the order of their
      first occurrences. */
  lemma {:induction false} DedupFromKeepsOrder(xs: seq<string>, seen: set<string>)
    ensures FirstSeenOrder(xs, DedupFrom(xs, seen))
    decreases |xs|
  {
    if xs != [] {
      var seen' := if xs[0] in seen then seen else seen + {xs[0]};
      var rest := DedupFrom(xs[1..], seen');
      DedupFromKeepsOrder(xs[1..], seen');
      if xs[0] !in seen {
        OrderCons(xs, rest);
      } else {
        OrderSkip(xs, rest);
      }
    }
  }

  /** Putting the head of `xs` in front of a list ordered by `xs[1..]`. */
  lemma OrderCons(xs: seq<string>, rest: seq<string>)
    requires xs != [] && xs[0] !in rest && FirstSeenOrder(xs[1..], rest)
    ensures FirstSeenOrder(xs, [xs[0]] + rest)
  {
    var r := [xs[0]] + rest;
    InTail(xs, rest);
    forall i, j | 0 <= i < j < |r|
      ensures FirstIndex(xs, r[i]) < FirstIndex(xs, r[j])
    {
      assert r[j] == rest[j - 1] && rest[j - 1] in rest;
      FirstIndexTail(xs, r[j]);
      if i > 0 {
        assert r[i] == rest[i - 1] && rest[i - 1] in rest;
        FirstIndexTail(xs, r[i]);
      }
    }
  }

  /** A list ordered by `xs[1..]` that leaves out the head is ordered by `xs`. */
  lemma OrderSkip(xs: seq<string>, rest: seq<string>)
    requires xs != [] && xs[0] !in rest && FirstSeenOrder(xs[1..], rest)
    ensures FirstSeenOrder(xs, rest)
  {
    InTail(xs, rest);
    forall i, j | 0 <= i < j < |rest|
      ensures FirstIndex(xs, rest[i]) < FirstIndex(xs, rest[j])
    {
      assert rest[i] in rest && rest[j] in rest;
      FirstIndexTail(xs, rest[i]);
      FirstIndexTail(xs, rest[j]);
    }
  }

  lemma InTail(xs: seq<string>, rest: seq<string>)
    requires xs != [] && forall x :: x in rest ==> x in xs[1..]
    ensures forall x :: x in rest ==> x in xs
  {
    forall x | x in rest
      ensures x in xs
    {
      var k :| 0 <= k < |xs| - 1 && xs[1..][k] == x;
      assert xs[k + 1] == x;
    }
  }

  lemma FirstIndexTail(xs: seq<string>, x: string)
    requires x in xs && xs[0] != x
    ensures x in xs[1..] && FirstIndex(xs, x) == FirstIndex(xs[1..], x) + 1
  {
  }

  /** A candidate fixture file: whether it is a regular file and its text. */
  datatype Fixture = Fixture(path: string, isFile: bool, text: Option<string>)

  /** Whether the importer copies `f`, whose source path is `p`. */
  predicate Copied(f: Fixture, p: string, skipInternal: bool) {
    f.path == p && f.isFile && !(skipInternal && IsInternalOnlyText(Head(f.text.GetOr(""))))
  }

  /** The fixture importer's main loop over the de-duplicated file list: a
      non-file is counted and skipped, an internal-only file is counted and
      skipped when `skipInternal` is set (an unreadable file reads as empty),
      and every other file is copied. `copiedSources` lists the source
      paths of the copied files, in order; the `copied` counter is its
      length. */
  method ImportFixtures(files: seq<Fixture>, skipInternal: bool)
    returns (copiedSources: seq<string>, skippedInternal: nat, skippedNonFile: nat)
    ensures |copiedSources| + skippedInternal + skippedNonFile == |files|
    ensures !skipInternal ==> skippedInternal == 0
    ensures forall p :: p in copiedSources <==> exists f :: f in files && Copied(f, p, skipInternal)
  {
    copiedSources := [];
    skippedInternal := 0;
    skippedNonFile := 0;
    var k := 0;
    while k < |files|
      invariant 0 <= k <= |files|
      invariant |copiedSources| + skippedInternal + skippedNonFile == k
      invariant !skipInternal ==> skippedInternal == 0
      invariant forall p :: p in copiedSources <==> exists f :: f in files[..k] && Copied(f, p, skipInternal)
    {
      var src := files[k];
      assert files[..k + 1] == files[..k] + [src];
      assert forall p :: Copied(src, p, skipInternal) ==> p == src.path;
      if !src.isFile {
        skippedNonFile := skippedNonFile + 1;
      } else if skipInternal && IsInternalOnlyText(Head(src.text.GetOr(""))) {
        skippedInternal := skippedInternal + 1;
      } else {
        assert Copied(src, src.path, skipInternal);
        copiedSources := copiedSources + [src.path];
      }
      k := k + 1;
    }
    assert files[..k] == files;
  }
}
