/** Retention of fuzzing results: oldest-first pruning of case directories
    and rewritten seed files down to a 90% watermark, the global case-count
    and byte caps over the SUCCESS and ERROR categories, and the free-space
    guard. The file system is a map from present entries to their
    modification times; sizes, free space and the entries whose deletion
    fails are inputs. */
module Retention {
  import opened Wrappers
  import opened Text

  /** `results/<category>/<name>`; rewritten seeds (`LLM/rewrites/<name>.rs`)
      use the category "rewrites". */
  datatype Entry = Entry(category: string, name: string)

  /** The entries present on disk, each with its modification time. */
  type Disk = map<Entry, int>

  /** Categories that retention may delete from. */
  const PRUNABLE_CATEGORIES: set<string> := {"success", "error", "fate", "rewrites"}

  function Min(a: int, b: int): int { if a < b then a else b }

  function Max(a: int, b: int): int { if a < b then b else a }

  /** `min(int(keep * 0.90), keep)`; `int` truncates toward zero. */
  function Watermark(keep: int): int {
    var t := if keep >= 0 then keep * 9 / 10 else -((-keep) * 9 / 10);
    Min(t, keep)
  }

  /** For a non-negative limit the watermark is the floor of 90% of it, so
      pruning always goes strictly below a positive limit; a negative limit
      is its own watermark. */
  lemma WatermarkBounds(keep: int)
    ensures keep >= 0 ==>
      0 <= Watermark(keep) <= keep && 10 * Watermark(keep) <= 9 * keep < 10 * Watermark(keep) + 10
    ensures keep > 0 ==> Watermark(keep) < keep
    ensures keep < 0 ==> Watermark(keep) == keep
  {
  }

  /** `_sort_oldest_first`'s key: the mtime, or `now` for a vanished path. */
  function Age(disk: Disk, now: int, e: Entry): int {
    if e in disk then disk[e] else now
  }

  predicate OldestFirst(s: seq<Entry>, disk: Disk, now: int) {
    forall i, j :: 0 <= i < j < |s| ==> Age(disk, now, s[i]) <= Age(disk, now, s[j])
  }

  function InsertByAge(x: Entry, s: seq<Entry>, disk: Disk, now: int): (r: seq<Entry>)
    requires OldestFirst(s, disk, now)
    ensures OldestFirst(r, disk, now)
    ensures multiset(r) == multiset(s) + multiset{x}
    ensures |r| == |s| + 1
    ensures r[0] == x || (s != [] && r[0] == s[0])
  {
    if s == [] then [x]
    else if Age(disk, now, x) <= Age(disk, now, s[0]) then
      OldestFirstCons(x, s, disk, now);
      [x] + s
    else
      var rest := InsertByAge(x, s[1..], disk, now);
      assert s == [s[0]] + s[1..];
      OldestFirstCons(s[0], rest, disk, now);
      [s[0]] + rest
  }

  /** Putting an entry no younger than the head in front keeps the order. */
  lemma OldestFirstCons(a: Entry, r: seq<Entry>, disk: Disk, now: int)
    requires OldestFirst(r, disk, now)
    requires r != [] ==> Age(disk, now, a) <= Age(disk, now, r[0])
    ensures OldestFirst([a] + r, disk, now)
  {
    var s := [a] + r;
    forall i, j | 0 <= i < j < |s|
      ensures Age(disk, now, s[i]) <= Age(disk, now, s[j])
    {
      if i == 0 && j > 1 {
        assert s[j] == r[j - 1];
      }
    }
  }

  /** `sorted(paths, key=mtime)`: a permutation of the input, oldest first. */
  function SortOldestFirst(s: seq<Entry>, disk: Disk, now: int): (r: seq<Entry>)
    ensures OldestFirst(r, disk, now)
    ensures multiset(r) == multiset(s)
    ensures |r| == |s|
  {
    if s == [] then []
    else
      assert s == [s[0]] + s[1..];
      InsertByAge(s[0], SortOldestFirst(s[1..], disk, now), disk, now)
  }

  predicate Distinct(s: seq<Entry>) {
    forall i, j :: 0 <= i < j < |s| ==> s[i] != s[j]
  }

  /** Inserting a new entry into a list without repetitions keeps it without
      repetitions. */
  lemma {:induction false} InsertKeepsDistinct(x: Entry, s: seq<Entry>, disk: Disk, now: int)
    requires OldestFirst(s, disk, now) && Distinct(s) && x !in s
    ensures Distinct(InsertByAge(x, s, disk, now))
  {
    if s != [] && Age(disk, now, x) > Age(disk, now, s[0]) {
      var rest := InsertByAge(x, s[1..], disk, now);
      assert Distinct(s[1..]) by {
        forall i, j | 0 <= i < j < |s[1..]| ensures s[1..][i] != s[1..][j] {
          assert s[1..][i] == s[i + 1] && s[1..][j] == s[j + 1];
        }
      }
      InsertKeepsDistinct(x, s[1..], disk, now);
      assert s[0] !in s[1..] by {
        forall j | 0 <= j < |s[1..]| ensures s[1..][j] != s[0] {
          assert s[1..][j] == s[j + 1];
        }
      }
      assert s[0] !in multiset(rest) by {
        assert multiset(rest) == multiset(s[1..]) + multiset{x};
      }
      var r := [s[0]] + rest;
      forall i, j | 0 <= i < j < |r| ensures r[i] != r[j] {
        if i == 0 {
          assert r[j] == rest[j - 1];
          assert rest[j - 1] in multiset(rest);
        } else {
          assert r[i] == rest[i - 1] && r[j] == rest[j - 1];
        }
      }
    }
  }

  /** Sorting a list without repetitions gives one without repetitions. */
  lemma {:induction false} SortKeepsDistinct(s: seq<Entry>, disk: Disk, now: int)
    requires Distinct(s)
    ensures Distinct(SortOldestFirst(s, disk, now))
  {
    if s != [] {
      var tail := SortOldestFirst(s[1..], disk, now);
      assert Distinct(s[1..]) by {
        forall i, j | 0 <= i < j < |s[1..]| ensures s[1..][i] != s[1..][j] {
          assert s[1..][i] == s[i + 1] && s[1..][j] == s[j + 1];
        }
      }
      SortKeepsDistinct(s[1..], disk, now);
      assert s[0] !in multiset(s[1..]) by {
        forall j | 0 <= j < |s[1..]| ensures s[1..][j] != s[0] {
          assert s[1..][j] == s[j + 1];
        }
      }
      assert s[0] !in tail by {
        assert multiset(tail) == multiset(s[1..]);
      }
      InsertKeepsDistinct(s[0], tail, disk, now);
    }
  }

  /** `disk` after trying to delete every entry of `victims`: the ones that
      are present and deletable are gone, the rest stays. */
  function AfterDeleting(disk: Disk, victims: seq<Entry>, undeletable: set<Entry>): Disk {
    map e | e in disk && !(e in victims && e !in undeletable) :: disk[e]
  }

  /** `after` is `before` with some of `victims` deleted and nothing else
      changed. */
  predicate DeletesOnly(before: Disk, after: Disk, victims: seq<Entry>) {
    (forall e :: e in after ==> e in before && after[e] == before[e])
    && (forall e :: e in before && e !in victims ==> e in after)
  }

  /** Deleting a prefix of a reordering of `victims` deletes only among
      `victims`. */
  lemma AfterDeletingOnly(disk: Disk, order: seq<Entry>, victims: seq<Entry>, cut: nat,
                          undeletable: set<Entry>)
    requires multiset(order) == multiset(victims) && cut <= |order|
    ensures DeletesOnly(disk, AfterDeleting(disk, order[..cut], undeletable), victims)
  {
    forall e | e in order[..cut]
      ensures e in victims
    {
      assert e in order;
      assert e in multiset(order);
    }
  }

  /** The loop shared by `_prune_oldest` and `_prune_oldest_files`: pop the
      oldest entry and delete it until at most `maxKeep` remain. A deletion
      that fails (already gone, or any other error) is skipped and pruning
      goes on. */
  method DeleteOldest(order: seq<Entry>, maxKeep: nat, disk: Disk, undeletable: set<Entry>)
    returns (kept: seq<Entry>, after: Disk)
    ensures var cut := |order| - Min(|order|, maxKeep);
      kept == order[cut..] && after == AfterDeleting(disk, order[..cut], undeletable)
  {
    kept := order;
    after := disk;
    var popped := 0;
    while |kept| > maxKeep
      invariant 0 <= popped <= |order| && kept == order[popped..]
      invariant popped > 0 ==> |kept| >= maxKeep
      invariant after == AfterDeleting(disk, order[..popped], undeletable)
      decreases |kept|
    {
      var victim := kept[0];
      kept := kept[1..];
      if victim in after && victim !in undeletable {
        after := after - {victim};
      }
      assert order[..popped + 1] == order[..popped] + [victim];
      popped := popped + 1;
    }
    assert popped == |order| - Min(|order|, maxKeep);
  }

  /** `_prune_oldest`: a negative `maxKeep` changes nothing; otherwise the
      list is sorted oldest first and shrunk to its newest `maxKeep`
      entries, deleting the popped ones. */
  method PruneOldest(dirs: seq<Entry>, maxKeep: int, disk: Disk, now: int, undeletable: set<Entry>)
    returns (kept: seq<Entry>, after: Disk)
    ensures maxKeep < 0 ==> kept == dirs && after == disk
    ensures maxKeep >= 0 ==>
      var order := SortOldestFirst(dirs, disk, now);
      var cut := |order| - Min(|order|, maxKeep);
      kept == order[cut..] && after == AfterDeleting(disk, order[..cut], undeletable)
    ensures DeletesOnly(disk, after, dirs)
  {
    if maxKeep < 0 {
      return dirs, disk;
    }
    var order := SortOldestFirst(dirs, disk, now);
    kept, after := DeleteOldest(order, maxKeep, disk, undeletable);
    AfterDeletingOnly(disk, order, dirs, |order| - Min(|order|, maxKeep), undeletable);
  }

  predicate AllPresent(files: seq<Entry>, disk: Disk) {
    forall i :: 0 <= i < |files| ==> files[i] in disk
  }

  /** `_prune_oldest_files`: like `PruneOldest`, but the sort reads each
      file's mtime directly, so a file that has vanished makes it raise
      (`None`). */
  method PruneOldestFiles(files: seq<Entry>, maxKeep: int, disk: Disk, undeletable: set<Entry>)
    returns (kept: Option<seq<Entry>>, after: Disk)
    ensures maxKeep < 0 ==> kept == Some(files) && after == disk
    ensures maxKeep >= 0 && !AllPresent(files, disk) ==> kept.None? && after == disk
    ensures maxKeep >= 0 && AllPresent(files, disk) ==>
      var order := SortOldestFirst(files, disk, 0);
      var cut := |order| - Min(|order|, maxKeep);
      kept == Some(order[cut..]) && after == AfterDeleting(disk, order[..cut], undeletable)
    ensures DeletesOnly(disk, after, files)
  {
    if maxKeep < 0 {
      return Some(files), disk;
    }
    var k := 0;
    while k < |files|
      invariant 0 <= k <= |files|
      invariant forall i :: 0 <= i < k ==> files[i] in disk
    {
      if files[k] !in disk {
        return None, disk;
      }
      k := k + 1;
    }
    // Every file is present, so the fallback age is never used.
    var order := SortOldestFirst(files, disk, 0);
    var rest;
    rest, after := DeleteOldest(order, maxKeep, disk, undeletable);
    AfterDeletingOnly(disk, order, files, |order| - Min(|order|, maxKeep), undeletable);
    kept := Some(rest);
  }

  /** What pruning to `maxKeep >= 0` promises: exactly `min(n, maxKeep)`
      entries survive, they are the newest ones, the survivors and the
      victims together are the original list, and every victim that could
      be deleted was deleted, failures notwithstanding. */
  lemma PruneKeepsNewest(dirs: seq<Entry>, maxKeep: nat, disk: Disk, now: int, undeletable: set<Entry>)
    ensures var order := SortOldestFirst(dirs, disk, now);
      var cut := |order| - Min(|order|, maxKeep);
      var after := AfterDeleting(disk, order[..cut], undeletable);
      && |order[cut..]| == Min(|dirs|, maxKeep)
      && (forall v, k :: v in order[..cut] && k in order[cut..] ==> Age(disk, now, v) <= Age(disk, now, k))
      && multiset(order[..cut]) + multiset(order[cut..]) == multiset(dirs)
      && (forall v :: v in order[..cut] && v !in undeletable ==> v !in after)
      && (forall e :: e in disk && e !in order[..cut] ==> e in after && after[e] == disk[e])
  {
    var order := SortOldestFirst(dirs, disk, now);
    var cut := |order| - Min(|order|, maxKeep);
    forall v, k | v in order[..cut] && k in order[cut..]
      ensures Age(disk, now, v) <= Age(disk, now, k)
    {
      var i :| 0 <= i < cut && order[i] == v;
      var j :| cut <= j < |order| && order[j] == k;
    }
    assert order == order[..cut] + order[cut..];
  }

  /** The global `max_cases` loop: pop the oldest and delete it while more
      than `target` remain. Unlike per-category pruning, the first failed
      deletion (including an already vanished directory) stops the loop. A
      negative target empties the list and then pops from an empty list,
      which raises (`raised`). */
  function CountCap(order: seq<Entry>, target: int, disk: Disk, undeletable: set<Entry>)
    : (r: (seq<Entry>, Disk, bool))
    decreases |order|
  {
    if |order| <= target then (order, disk, false)
    else if order == [] then ([], disk, true)
    else if order[0] !in disk || order[0] in undeletable then (order[1..], disk, false)
    else CountCap(order[1..], target, disk - {order[0]}, undeletable)
  }

  method CapCaseCount(order: seq<Entry>, target: int, disk: Disk, undeletable: set<Entry>)
    returns (rest: seq<Entry>, after: Disk, raised: bool)
    ensures (rest, after, raised) == CountCap(order, target, disk, undeletable)
  {
    rest, after, raised := order, disk, false;
    while |rest| > target
      invariant CountCap(rest, target, after, undeletable) == CountCap(order, target, disk, undeletable)
      decreases |rest|
    {
      if rest == [] {
        raised := true;
        return;
      }
      var victim := rest[0];
      rest := rest[1..];
      if victim !in after || victim in undeletable {
        return;
      }
      after := after - {victim};
    }
  }

  /** The count cap only deletes entries of its list, never adds any, and
      raises only for a negative target. With a non-negative target and
      every listed entry deletable it leaves exactly `min(n, target)`. */
  lemma {:induction false} CountCapFacts(order: seq<Entry>, target: int, disk: Disk, undeletable: set<Entry>)
    ensures var (rest, after, raised) := CountCap(order, target, disk, undeletable);
      && (raised ==> target < 0)
      && (forall e :: e in after ==> e in disk && after[e] == disk[e])
      && (forall e :: e in disk && e !in order ==> e in after)
      && (target >= 0 && (forall e :: e in order ==> e in disk && e !in undeletable)
          && (forall i, j :: 0 <= i < j < |order| ==> order[i] != order[j])
          ==> |rest| == Min(|order|, target))
    decreases |order|
  {
    if |order| <= target || order == [] {
    } else if order[0] !in disk || order[0] in undeletable {
    } else {
      var d' := disk - {order[0]};
      CountCapFacts(order[1..], target, d', undeletable);
      var (rest, after, raised) := CountCap(order[1..], target, d', undeletable);
      if target >= 0 && (forall e :: e in order ==> e in disk && e !in undeletable)
         && (forall i, j :: 0 <= i < j < |order| ==> order[i] != order[j]) {
        forall e | e in order[1..]
          ensures e in d' && e !in undeletable
        {
          var j :| 1 <= j < |order| && order[j] == e;
          assert order[0] != order[j];
        }
        assert forall i, j :: 0 <= i < j < |order[1..]| ==> order[1..][i] != order[1..][j] by {
          forall i, j | 0 <= i < j < |order[1..]|
            ensures order[1..][i] != order[1..][j]
          {
            assert order[1..][i] == order[i + 1] && order[1..][j] == order[j + 1];
          }
        }
      }
    }
  }

  /** The count cap pops a prefix of its list: what it leaves is the rest of
      the list, and the store is the one left by trying to delete that
      prefix (the victim on which the loop broke was not deletable, so it
      is still there). */
  lemma {:induction false} CountCapPopsPrefix(order: seq<Entry>, target: int, disk: Disk, undeletable: set<Entry>)
    ensures var (rest, after, raised) := CountCap(order, target, disk, undeletable);
      && |rest| <= |order| && rest == order[|order| - |rest|..]
      && after == AfterDeleting(disk, order[..|order| - |rest|], undeletable)
    decreases |order|
  {
    if |order| <= target || order == [] {
      assert AfterDeleting(disk, order[..0], undeletable) == disk;
    } else if order[0] !in disk || order[0] in undeletable {
      assert AfterDeleting(disk, order[..1], undeletable) == disk;
    } else {
      var d' := disk - {order[0]};
      CountCapPopsPrefix(order[1..], target, d', undeletable);
      var (rest, after, raised) := CountCap(order[1..], target, d', undeletable);
      var k := |order[1..]| - |rest|;
      assert order[..k + 1] == [order[0]] + order[1..][..k];
      PrefixAfterDeleting(order[0], order[1..][..k], disk, undeletable);
    }
  }

  /** Deleting a deletable present entry and then a list is deleting the
      list with that entry in front. */
  lemma PrefixAfterDeleting(x: Entry, victims: seq<Entry>, disk: Disk, undeletable: set<Entry>)
    requires x in disk && x !in undeletable
    ensures AfterDeleting(disk - {x}, victims, undeletable) == AfterDeleting(disk, [x] + victims, undeletable)
  {
    var a := AfterDeleting(disk - {x}, victims, undeletable);
    var b := AfterDeleting(disk, [x] + victims, undeletable);
    forall e ensures e in a <==> e in b {
      assert e in [x] + victims <==> e == x || e in victims;
    }
  }

  /** The global byte cap: pop the oldest and delete it while the measured
      size exceeds `target`, subtracting the victim's size (not below 0); the
      first failed deletion stops the loop. */
  function ByteCap(order: seq<Entry>, size: nat, target: int, disk: Disk, sizes: map<Entry, nat>,
                   undeletable: set<Entry>): (r: (seq<Entry>, nat, Disk))
    decreases |order|
  {
    if order == [] || size <= target then (order, size, disk)
    else
      var victim := order[0];
      var victimSize := if victim in sizes then sizes[victim] else 0;
      if victim !in disk || victim in undeletable then (order[1..], size, disk)
      else ByteCap(order[1..], Max(0, size - victimSize), target, disk - {victim}, sizes, undeletable)
  }

  /** The byte cap pops a prefix of its list, as the count cap does. */
  lemma {:induction false} ByteCapPopsPrefix(order: seq<Entry>, size: nat, target: int, disk: Disk,
                                             sizes: map<Entry, nat>, undeletable: set<Entry>)
    ensures var (rest, finalSize, after) := ByteCap(order, size, target, disk, sizes, undeletable);
      && |rest| <= |order| && rest == order[|order| - |rest|..]
      && after == AfterDeleting(disk, order[..|order| - |rest|], undeletable)
    decreases |order|
  {
    if order == [] || size <= target {
      assert AfterDeleting(disk, order[..0], undeletable) == disk;
    } else {
      var victim := order[0];
      var victimSize := if victim in sizes then sizes[victim] else 0;
      if victim !in disk || victim in undeletable {
        assert AfterDeleting(disk, order[..1], undeletable) == disk;
      } else {
        var d' := disk - {victim};
        ByteCapPopsPrefix(order[1..], Max(0, size - victimSize), target, d', sizes, undeletable);
        var (rest, finalSize, after) := ByteCap(order[1..], Max(0, size - victimSize), target, d', sizes, undeletable);
        var k := |order[1..]| - |rest|;
        assert order[..k + 1] == [order[0]] + order[1..][..k];
        PrefixAfterDeleting(order[0], order[1..][..k], disk, undeletable);
      }
    }
  }

  method CapBytes(order: seq<Entry>, size: nat, target: int, disk: Disk, sizes: map<Entry, nat>,
                  undeletable: set<Entry>)
    returns (rest: seq<Entry>, finalSize: nat, after: Disk)
    ensures (rest, finalSize, after) == ByteCap(order, size, target, disk, sizes, undeletable)
  {
    rest, finalSize, after := order, size, disk;
    while rest != [] && finalSize > target
      invariant ByteCap(rest, finalSize, target, after, sizes, undeletable)
             == ByteCap(order, size, target, disk, sizes, undeletable)
      decreases |rest|
    {
      var victim := rest[0];
      rest := rest[1..];
      var victimSize := if victim in sizes then sizes[victim] else 0;
      if victim !in after || victim in undeletable {
        return;
      }
      after := after - {victim};
      finalSize := Max(0, finalSize - victimSize);
    }
  }

  /** The byte cap only deletes entries of its list, and when it runs out of
      neither entries nor deletable victims it ends at or below target. */
  lemma {:induction false} ByteCapFacts(order: seq<Entry>, size: nat, target: int, disk: Disk,
                                        sizes: map<Entry, nat>, undeletable: set<Entry>)
    ensures var (rest, finalSize, after) := ByteCap(order, size, target, disk, sizes, undeletable);
      && finalSize <= size
      && (forall e :: e in after ==> e in disk && after[e] == disk[e])
      && (forall e :: e in disk && e !in order ==> e in after)
      && ((forall e :: e in order ==> e in disk && e !in undeletable)
          && (forall i, j :: 0 <= i < j < |order| ==> order[i] != order[j])
          ==> rest == [] || finalSize <= target)
    decreases |order|
  {
    if order == [] || size <= target {
    } else {
      var victim := order[0];
      var victimSize := if victim in sizes then sizes[victim] else 0;
      if victim !in disk || victim in undeletable {
      } else {
        var d' := disk - {victim};
        ByteCapFacts(order[1..], Max(0, size - victimSize), target, d', sizes, undeletable);
        if (forall e :: e in order ==> e in disk && e !in undeletable)
           && (forall i, j :: 0 <= i < j < |order| ==> order[i] != order[j]) {
          forall e | e in order[1..]
            ensures e in d' && e !in undeletable
          {
            var j :| 1 <= j < |order| && order[j] == e;
            assert order[0] != order[j];
          }
          assert forall i, j :: 0 <= i < j < |order[1..]| ==> order[1..][i] != order[1..][j] by {
            forall i, j | 0 <= i < j < |order[1..]|
              ensures order[1..][i] != order[1..][j]
            {
              assert order[1..][i] == order[i + 1] && order[1..][j] == order[j + 1];
            }
          }
        }
      }
    }
  }

  /** Whether an entry is listed for its category: case directories are
      named `case_*`, rewritten seeds `*.rs`. */
  predicate Listed(e: Entry, category: string) {
    e.category == category
    && (if category == "rewrites" then EndsWith(e.name, ".rs") else StartsWith(e.name, "case_"))
  }

  function ListedSet(disk: Disk, category: string): set<Entry> {
    set e | e in disk && Listed(e, category)
  }

  /** `listed` lists the category's entries on disk, each once. */
  ghost predicate IsListing(listed: seq<Entry>, disk: Disk, category: string) {
    (forall e :: e in listed <==> e in disk && Listed(e, category)) && Distinct(listed)
  }

  /** Directory listing in the file system's own (unspecified) order. */
  method ListCategory(disk: Disk, category: string) returns (listed: seq<Entry>)
    ensures forall e :: e in listed <==> e in disk && Listed(e, category)
    ensures forall i, j :: 0 <= i < j < |listed| ==> listed[i] != listed[j]
  {
    var pending := set e | e in disk && Listed(e, category);
    listed := [];
    while pending != {}
      invariant forall e :: e in listed || e in pending <==> e in disk && Listed(e, category)
      invariant forall e :: e in listed ==> e !in pending
      invariant forall i, j :: 0 <= i < j < |listed| ==> listed[i] != listed[j]
      decreases |pending|
    {
      var e :| e in pending;
      listed := listed + [e];
      pending := pending - {e};
    }
  }

  function Elements(s: seq<Entry>): set<Entry> {
    set e | e in s
  }

  /** A list without repetitions has as many elements as the set of them. */
  lemma {:induction false} DistinctCardinality(s: seq<Entry>)
    requires forall i, j :: 0 <= i < j < |s| ==> s[i] != s[j]
    ensures |Elements(s)| == |s|
  {
    if s != [] {
      var init := s[..|s| - 1];
      DistinctCardinality(init);
      assert Elements(s) == Elements(init) + {s[|s| - 1]};
      assert s[|s| - 1] !in init;
    }
  }

  /** `after` is `before` with some entries of the `categories` deleted and
      nothing else changed. */
  predicate DeletesWithin(before: Disk, after: Disk, categories: set<string>) {
    (forall e :: e in after ==> e in before && after[e] == before[e])
    && (forall e :: e in before && e.category !in categories ==> e in after)
  }

  /** The outcome of one category's `keep_*` limit: over the limit, the
      listing sorted oldest first loses its oldest entries down to
      `Watermark(keep)` and the store loses those of them it can; otherwise
      nothing changes. */
  ghost predicate CategoryPruned(listed: seq<Entry>, keep: int, disk: Disk, now: int, undeletable: set<Entry>,
                                 kept: seq<Entry>, after: Disk)
  {
    if keep >= 0 && |listed| > keep then
      var order := SortOldestFirst(listed, disk, now);
      var cut := |order| - Min(|order|, Watermark(keep));
      kept == order[cut..] && after == AfterDeleting(disk, order[..cut], undeletable)
    else
      kept == listed && after == disk
  }

  /** One category's `keep_*` limit: pruned to its watermark only when the
      listing is over the limit (a negative limit disables it). A pruned
      listing keeps exactly its `Watermark(keep)` newest entries, and
      every older entry that can be deleted is gone. */
  method PruneCategory(listed: seq<Entry>, category: string, keep: int, disk: Disk, now: int,
                       undeletable: set<Entry>)
    returns (kept: seq<Entry>, after: Disk)
    requires forall e :: e in listed ==> e.category == category
    ensures DeletesWithin(disk, after, {category})
    ensures !(keep >= 0 && |listed| > keep) ==> after == disk && kept == listed
    ensures forall e :: e in kept ==> e in listed
    ensures keep >= 0 && |listed| > keep ==> |kept| == Watermark(keep)
    ensures keep >= 0 && |listed| > keep ==>
      var order := SortOldestFirst(listed, disk, now);
      var cut := |order| - Min(|order|, Watermark(keep));
      && kept == order[cut..]
      && multiset(order[..cut]) + multiset(order[cut..]) == multiset(listed)
      && (forall v, k :: v in order[..cut] && k in order[cut..] ==> Age(disk, now, v) <= Age(disk, now, k))
      && (forall v :: v in order[..cut] && v !in undeletable ==> v !in after)
      && after == AfterDeleting(disk, order[..cut], undeletable)
    ensures CategoryPruned(listed, keep, disk, now, undeletable, kept, after)
  {
    kept, after := listed, disk;
    if keep >= 0 && |listed| > keep {
      WatermarkBounds(keep);
      kept, after := PruneOldest(listed, Watermark(keep), disk, now, undeletable);
      PruneKeepsNewest(listed, Watermark(keep), disk, now, undeletable);
      ghost var order := SortOldestFirst(listed, disk, now);
      forall e | e in kept
        ensures e in listed
      {
        assert e in order;
        assert e in multiset(order);
      }
    }
  }

  /** Whether `_prune_oldest_files` raises on the rewrite listing: it runs
      only when the directory exists, the limit is not negative and the
      glob found more files than the limit, and then sorting by mtime fails
      on a listed file that has since vanished. */
  predicate RewritePruneRaises(dirExists: bool, keep: int, rewritten: seq<Entry>, disk: Disk) {
    dirExists && keep >= 0 && |rewritten| > keep && !AllPresent(rewritten, disk)
  }

  /** The `keep_rewritten` limit over `LLM/rewrites/<name>.rs`, applied only
      when that directory exists and the limit is not negative. `rewritten`
      is the glob listing, taken before the sort and possibly stale;
      `raised` reports the exception that then escapes. */
  method PruneRewrites(dirExists: bool, keep: int, rewritten: seq<Entry>, disk: Disk, undeletable: set<Entry>)
    returns (raised: bool, after: Disk)
    requires forall e :: e in rewritten ==> e.category == "rewrites"
    ensures DeletesWithin(disk, after, {"rewrites"})
    ensures raised <==> RewritePruneRaises(dirExists, keep, rewritten, disk)
    ensures !(dirExists && keep >= 0 && |rewritten| > keep) || raised ==> after == disk
    ensures dirExists && keep >= 0 && |rewritten| > keep && AllPresent(rewritten, disk) ==>
      var order := SortOldestFirst(rewritten, disk, 0);
      var cut := |order| - Min(|order|, Watermark(keep));
      after == AfterDeleting(disk, order[..cut], undeletable)
  {
    raised, after := false, disk;
    if dirExists && keep >= 0 && |rewritten| > keep {
      WatermarkBounds(keep);
      var kept;
      kept, after := PruneOldestFiles(rewritten, Watermark(keep), disk, undeletable);
      raised := kept.None?;
    }
  }

  /** The target of a global cap: the watermark of the limit when the
      measured amount is over it, else the limit itself. */
  function CapTarget(measured: int, limit: int): int {
    if measured > limit then Watermark(limit) else limit
  }

  /** The global `max_cases` limit over the SUCCESS and ERROR lists left by
      per-category pruning: the lists are sorted oldest first and the count
      cap pops from the front, so the entries it leaves (`rest`) are the
      newest part of the sorted list. With a non-negative limit and every
      listed entry present and deletable, exactly `min(n, target)` remain. */
  method MaxCasesPhase(maxCases: Option<int>, listed: seq<Entry>, disk: Disk, now: int,
                       undeletable: set<Entry>)
    returns (rest: seq<Entry>, raised: bool, after: Disk)
    requires forall e :: e in listed ==> e.category in {"success", "error"}
    ensures DeletesWithin(disk, after, {"success", "error"})
    ensures raised ==> maxCases.Some? && maxCases.value < 0
    ensures maxCases.None? ==> rest == listed && !raised && after == disk
    ensures maxCases.Some? ==>
      var prunable := SortOldestFirst(listed, disk, now);
      var k := |prunable| - |rest|;
      && (rest, after, raised) == CountCap(prunable, CapTarget(|listed|, maxCases.value), disk, undeletable)
      && 0 <= k && rest == prunable[k..]
      && after == AfterDeleting(disk, prunable[..k], undeletable)
    ensures maxCases.Some? && maxCases.value >= 0 && Distinct(listed)
            && (forall e :: e in listed ==> e in disk && e !in undeletable) ==>
      |rest| == Min(|listed|, CapTarget(|listed|, maxCases.value))
  {
    rest, raised, after := listed, false, disk;
    if maxCases.Some? {
      var limit := maxCases.value;
      var prunable := SortOldestFirst(listed, disk, now);
      var target := if |prunable| > limit then Watermark(limit) else limit;
      WatermarkBounds(limit);
      if Distinct(listed) {
        SortKeepsDistinct(listed, disk, now);
      }
      SortedCountCap(listed, prunable, target, disk, undeletable);
      rest, after, raised := CapCaseCount(prunable, target, disk, undeletable);
    }
  }

  /** The count cap over a reordering of the SUCCESS and ERROR lists: its
      frame, its prefix shape and its final count. */
  lemma {:induction false} SortedCountCap(listed: seq<Entry>, prunable: seq<Entry>, target: int, disk: Disk,
                                          undeletable: set<Entry>)
    requires forall e :: e in listed ==> e.category in {"success", "error"}
    requires multiset(prunable) == multiset(listed)
    requires Distinct(listed) ==> Distinct(prunable)
    ensures var r := CountCap(prunable, target, disk, undeletable);
      var k := |prunable| - |r.0|;
      && DeletesWithin(disk, r.1, {"success", "error"})
      && (r.2 ==> target < 0)
      && 0 <= k && r.0 == prunable[k..]
      && r.1 == AfterDeleting(disk, prunable[..k], undeletable)
      && (target >= 0 && Distinct(listed) && (forall e :: e in listed ==> e in disk && e !in undeletable)
          ==> |r.0| == Min(|listed|, target))
  {
    var r := CountCap(prunable, target, disk, undeletable);
    CountCapFacts(prunable, target, disk, undeletable);
    CountCapPopsPrefix(prunable, target, disk, undeletable);
    forall e | e in disk && e.category !in {"success", "error"} ensures e in r.1 {
      assert e !in listed;
      assert e !in multiset(prunable);
    }
    if target >= 0 && Distinct(listed) && (forall e :: e in listed ==> e in disk && e !in undeletable) {
      forall e | e in prunable ensures e in disk && e !in undeletable {
        assert e in multiset(listed);
      }
    }
  }

  /** The global `max_results_gb` limit: the SUCCESS and ERROR case folders
      are listed again (`prunable`, oldest first, each once) and deleted
      from the front while the measured size is over the target. What is
      left (`rest`) is the newest part of that list, the size never grows,
      and when every listed folder is deletable the loop ends at or below
      the target unless it ran out of folders. */
  method MaxBytesPhase(maxBytes: Option<int>, measuredBytes: nat, sizes: map<Entry, nat>,
                       disk: Disk, now: int, undeletable: set<Entry>)
    returns (prunable: seq<Entry>, rest: seq<Entry>, finalSize: nat, after: Disk)
    ensures DeletesWithin(disk, after, {"success", "error"})
    ensures maxBytes.None? ==> after == disk && finalSize == measuredBytes
    ensures maxBytes.Some? ==>
      var target := CapTarget(measuredBytes, maxBytes.value);
      var k := |prunable| - |rest|;
      && (forall x :: x in prunable <==> x in disk && (Listed(x, "success") || Listed(x, "error")))
      && Distinct(prunable) && OldestFirst(prunable, disk, now)
      && (rest, finalSize, after) == ByteCap(prunable, measuredBytes, target, disk, sizes, undeletable)
      && 0 <= k && rest == prunable[k..]
      && after == AfterDeleting(disk, prunable[..k], undeletable)
      && finalSize <= measuredBytes
      && ((forall x :: x in prunable ==> x !in undeletable) ==> rest == [] || finalSize <= target)
  {
    prunable, rest, finalSize, after := [], [], measuredBytes, disk;
    if maxBytes.Some? {
      var limit := maxBytes.value;
      var s := ListCategory(disk, "success");
      var e := ListCategory(disk, "error");
      JoinedListings(s, e, disk);
      prunable := SortOldestFirst(s + e, disk, now);
      SortKeepsDistinct(s + e, disk, now);
      forall x ensures x in prunable <==> x in disk && (Listed(x, "success") || Listed(x, "error")) {
        assert x in prunable <==> x in multiset(s + e);
      }
      var target := if measuredBytes > limit then Watermark(limit) else limit;
      SortedByteCap(prunable, measuredBytes, target, disk, sizes, undeletable);
      rest, finalSize, after := CapBytes(prunable, measuredBytes, target, disk, sizes, undeletable);
    }
  }

  /** The SUCCESS listing followed by the ERROR listing lists both
      categories, each entry once. */
  lemma JoinedListings(s: seq<Entry>, e: seq<Entry>, disk: Disk)
    requires forall x :: x in s <==> x in disk && Listed(x, "success")
    requires forall x :: x in e <==> x in disk && Listed(x, "error")
    requires Distinct(s) && Distinct(e)
    ensures Distinct(s + e)
    ensures forall x :: x in s + e <==> x in disk && (Listed(x, "success") || Listed(x, "error"))
  {
    forall i, j | 0 <= i < j < |s + e| ensures (s + e)[i] != (s + e)[j] {
      if j < |s| {
      } else if i >= |s| {
        assert (s + e)[i] == e[i - |s|] && (s + e)[j] == e[j - |s|];
      } else {
        assert (s + e)[i] == s[i] && s[i] in s;
        assert (s + e)[j] == e[j - |s|] && e[j - |s|] in e;
      }
    }
  }

  /** The byte cap over the sorted SUCCESS and ERROR folders: its frame, its
      prefix shape, a size that never grows, and the target reached unless
      the folders ran out. */
  lemma {:induction false} SortedByteCap(prunable: seq<Entry>, size: nat, target: int, disk: Disk,
                                         sizes: map<Entry, nat>, undeletable: set<Entry>)
    requires forall x :: x in prunable ==> x in disk && x.category in {"success", "error"}
    requires Distinct(prunable)
    ensures var r := ByteCap(prunable, size, target, disk, sizes, undeletable);
      var k := |prunable| - |r.0|;
      && DeletesWithin(disk, r.2, {"success", "error"})
      && 0 <= k && r.0 == prunable[k..]
      && r.2 == AfterDeleting(disk, prunable[..k], undeletable)
      && r.1 <= size
      && ((forall x :: x in prunable ==> x !in undeletable) ==> r.0 == [] || r.1 <= target)
  {
    var r := ByteCap(prunable, size, target, disk, sizes, undeletable);
    ByteCapFacts(prunable, size, target, disk, sizes, undeletable);
    ByteCapPopsPrefix(prunable, size, target, disk, sizes, undeletable);
    forall x | x in disk && x.category !in {"success", "error"} ensures x in r.2 {
      assert x !in prunable;
    }
  }

  datatype Limits = Limits(
    maxCases: Option<int>,
    maxResultsBytes: Option<int>,
    minFreeBytes: Option<int>,
    keepSuccess: int,
    keepError: int,
    keepFate: int,
    keepRewritten: int)

  /** The per-category part of `enforce_results_limits`: the SUCCESS, ERROR
      and FATE listings and the rewritten seeds, each pruned to its own
      `keep_*` limit. Returns the SUCCESS and ERROR entries that are left. */
  method PerCategoryLimits(limits: Limits, disk: Disk, now: int, undeletable: set<Entry>,
                           rewriteDirExists: bool, rewritten: seq<Entry>)
    returns (success: seq<Entry>, error: seq<Entry>, raised: bool, after: Disk)
    requires forall e :: e in rewritten ==> e.category == "rewrites"
    ensures DeletesWithin(disk, after, PRUNABLE_CATEGORIES)
    ensures raised <==> RewritePruneRaises(rewriteDirExists, limits.keepRewritten, rewritten, disk)
    ensures forall e :: e in disk && e.category == "fate" && e !in after ==>
      limits.keepFate >= 0 && |ListedSet(disk, "fate")| > limits.keepFate
    ensures forall e :: e in success + error ==> e.category in {"success", "error"}
  {
    var d2, mid;
    ghost var listedSuccess, listedError;
    success, error, d2, listedSuccess, listedError, mid := PruneSuccessAndError(limits, disk, now, undeletable);
    var fate := ListCategory(disk, "fate");
    DistinctCardinality(fate);
    assert Elements(fate) == ListedSet(disk, "fate");
    // The SUCCESS and ERROR phase deletes no rewrite, so the rewrite listing sees the same files.
    RewritesUntouched(disk, d2, {"success", "error"}, rewritten);
    raised, after := PruneFateAndRewrites(limits, fate, d2, now, undeletable, rewriteDirExists, rewritten);
  }

  /** A deletion confined to other categories leaves every rewritten seed
      where it was. */
  lemma RewritesUntouched(before: Disk, after: Disk, categories: set<string>, rewritten: seq<Entry>)
    requires DeletesWithin(before, after, categories) && "rewrites" !in categories
    requires forall e :: e in rewritten ==> e.category == "rewrites"
    ensures AllPresent(rewritten, after) <==> AllPresent(rewritten, before)
  {
    if AllPresent(rewritten, after) {
      forall i | 0 <= i < |rewritten| ensures rewritten[i] in before {
        assert rewritten[i] in after;
      }
    }
  }

  /** The FATE listing and the rewritten seeds, each pruned to its own
      `keep_*` limit. */
  method PruneFateAndRewrites(limits: Limits, fate: seq<Entry>, disk: Disk, now: int, undeletable: set<Entry>,
                              rewriteDirExists: bool, rewritten: seq<Entry>)
    returns (raised: bool, after: Disk)
    requires forall e :: e in fate ==> e.category == "fate"
    requires forall e :: e in rewritten ==> e.category == "rewrites"
    ensures DeletesWithin(disk, after, {"fate", "rewrites"})
    ensures raised <==> RewritePruneRaises(rewriteDirExists, limits.keepRewritten, rewritten, disk)
    ensures forall e :: e in disk && e.category == "fate" && e !in after ==>
      limits.keepFate >= 0 && |fate| > limits.keepFate
  {
    var keptFate, d3 := PruneCategory(fate, "fate", limits.keepFate, disk, now, undeletable);
    // Pruning FATE deletes no rewrite either.
    RewritesUntouched(disk, d3, {"fate"}, rewritten);
    raised, after := PruneRewrites(rewriteDirExists, limits.keepRewritten, rewritten, d3, undeletable);
  }

  /** The SUCCESS and ERROR listings (`listedSuccess`, `listedError`, both
      taken before any deletion), each pruned to its own `keep_*` limit;
      `mid` is the store between the two. The entries left in each are
      returned. */
  method PruneSuccessAndError(limits: Limits, disk: Disk, now: int, undeletable: set<Entry>)
    returns (success: seq<Entry>, error: seq<Entry>, after: Disk,
             ghost listedSuccess: seq<Entry>, ghost listedError: seq<Entry>, mid: Disk)
    ensures IsListing(listedSuccess, disk, "success") && IsListing(listedError, disk, "error")
    ensures CategoryPruned(listedSuccess, limits.keepSuccess, disk, now, undeletable, success, mid)
    ensures CategoryPruned(listedError, limits.keepError, mid, now, undeletable, error, after)
    ensures DeletesWithin(disk, after, {"success", "error"})
    ensures forall e :: e in success ==> e in disk && e.category == "success"
    ensures forall e :: e in error ==> e in disk && e.category == "error"
  {
    success := ListCategory(disk, "success");
    error := ListCategory(disk, "error");
    listedSuccess, listedError := success, error;
    success, mid := PruneCategory(success, "success", limits.keepSuccess, disk, now, undeletable);
    error, after := PruneCategory(error, "error", limits.keepError, mid, now, undeletable);
  }

  /** `enforce_results_limits`. Whether the rewrite directory exists, the
      measured size of the SUCCESS and ERROR folders and the free space
      after pruning are disk queries given as inputs. The result is
      `Some(continue?)`, or `None` when an exception escapes. `rewritten` is
      the glob listing of the rewrite directory. */
  method EnforceResultsLimits(limits: Limits, disk: Disk, now: int, undeletable: set<Entry>,
                              rewriteDirExists: bool, rewritten: seq<Entry>, sizes: map<Entry, nat>,
                              measuredBytes: nat, freeAfter: int)
    returns (outcome: Option<bool>, after: Disk)
    requires forall e :: e in rewritten ==> e.category == "rewrites"
    // Nothing is created, and only the prunable categories lose entries:
    // HANG, CRASH and miscompilation cases are never deleted.
    ensures DeletesWithin(disk, after, PRUNABLE_CATEGORIES)
    // FATE cases go only when their own category is over its limit.
    ensures forall e :: e in disk && e.category == "fate" && e !in after ==>
      limits.keepFate >= 0 && |ListedSet(disk, "fate")| > limits.keepFate
    // An exception escapes from a vanished rewrite file, and otherwise only
    // from a negative case limit.
    ensures RewritePruneRaises(rewriteDirExists, limits.keepRewritten, rewritten, disk) ==> outcome.None?
    ensures outcome.None? ==>
      RewritePruneRaises(rewriteDirExists, limits.keepRewritten, rewritten, disk)
      || (limits.maxCases.Some? && limits.maxCases.value < 0)
    // The worker is told to stop exactly when free space is below the floor.
    ensures outcome.Some? ==>
      (outcome.value <==> !(limits.minFreeBytes.Some? && freeAfter < limits.minFreeBytes.value))
  {
    var success, error, rewriteRaised, d4 :=
      PerCategoryLimits(limits, disk, now, undeletable, rewriteDirExists, rewritten);
    if rewriteRaised {
      return None, d4;
    }
    var rest, raised, d5 := MaxCasesPhase(limits.maxCases, success + error, d4, now, undeletable);
    if raised {
      return None, d5;
    }
    var prunable, left, finalSize;
    prunable, left, finalSize, after := MaxBytesPhase(limits.maxResultsBytes, measuredBytes, sizes, d5, now, undeletable);
    if limits.minFreeBytes.Some? && freeAfter < limits.minFreeBytes.value {
      return Some(false), after;
    }
    return Some(true), after;
  }
}
