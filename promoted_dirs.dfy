/** Naming and rollover of the promoted-seed directories `new1`, `new2`, ...
    under the seeds directory. The directory listing and the number of seed
    files in the current directory are inputs. */
module PromotedDirs {
  import opened Wrappers
  import opened Text

  datatype DirEntry = DirEntry(name: string, isDir: bool)

  /** `e` is a directory named `prefix` followed by an all-digit suffix. */
  predicate Numbered(e: DirEntry, prefix: string) {
    e.isDir && StartsWith(e.name, prefix) && IsDigits(e.name[|prefix|..])
  }

  function SuffixValue(e: DirEntry, prefix: string): nat
    requires Numbered(e, prefix)
  {
    DigitsValue(e.name[|prefix|..])
  }

  /** The largest numeric suffix among the `prefix*` directories of
      `entries`, 0 when there is none. */
  function MaxSuffix(entries: seq<DirEntry>, prefix: string): (m: nat)
    ensures forall e :: e in entries && Numbered(e, prefix) ==> SuffixValue(e, prefix) <= m
    ensures m == 0 || exists e :: e in entries && Numbered(e, prefix) && SuffixValue(e, prefix) == m
  {
    if entries == [] then 0
    else
      var init := entries[..|entries| - 1];
      var last := entries[|entries| - 1];
      var m := MaxSuffix(init, prefix);
      assert entries == init + [last];
      if Numbered(last, prefix) && SuffixValue(last, prefix) > m then SuffixValue(last, prefix) else m
  }

  /** One more entry raises the maximum to its suffix when that is larger. */
  lemma MaxSuffixStep(entries: seq<DirEntry>, k: nat, prefix: string)
    requires k < |entries|
    ensures MaxSuffix(entries[..k + 1], prefix) ==
      var m := MaxSuffix(entries[..k], prefix);
      if Numbered(entries[k], prefix) && SuffixValue(entries[k], prefix) > m then SuffixValue(entries[k], prefix) else m
  {
    assert entries[..k + 1][..k] == entries[..k];
  }

  /** `pick_next_new_seed_dir`: `prefix` followed by the decimal digits of
      one more than the largest numeric suffix among the existing `prefix*`
      directories (`MaxSuffix`, 0 when there is none). The number is above
      every existing suffix and exactly one above the largest. */
  method PickNextNewSeedDir(entries: seq<DirEntry>, prefix: string) returns (name: string)
    ensures name == prefix + NatToDigits(MaxSuffix(entries, prefix) + 1)
    ensures StartsWith(name, prefix) && IsDigits(name[|prefix|..])
    ensures var n := DigitsValue(name[|prefix|..]);
      && n == MaxSuffix(entries, prefix) + 1
      && (forall e :: e in entries && Numbered(e, prefix) ==> SuffixValue(e, prefix) < n)
      && (n == 1 || exists e :: e in entries && Numbered(e, prefix) && SuffixValue(e, prefix) == n - 1)
  {
    var maxN := 0;
    var k := 0;
    while k < |entries|
      invariant 0 <= k <= |entries|
      invariant maxN == MaxSuffix(entries[..k], prefix)
    {
      var p := entries[k];
      MaxSuffixStep(entries, k, prefix);
      if p.isDir && StartsWith(p.name, prefix) {
        var suffix := p.name[|prefix|..];
        if IsDigits(suffix) && DigitsValue(suffix) > maxN {
          maxN := DigitsValue(suffix);
        }
      }
      k := k + 1;
    }
    assert entries[..k] == entries;
    var digits := NatToDigits(maxN + 1);
    name := prefix + digits;
    assert name[|prefix|..] == digits;
    DigitsRoundTrip(maxN + 1);
  }

  /** The name picked is never that of an existing directory. */
  lemma NextDirIsFresh(entries: seq<DirEntry>, prefix: string, name: string)
    requires StartsWith(name, prefix) && IsDigits(name[|prefix|..])
    requires forall e :: e in entries && Numbered(e, prefix) ==>
      SuffixValue(e, prefix) < DigitsValue(name[|prefix|..])
    ensures forall e :: e in entries && e.isDir ==> e.name != name
  {
    forall e | e in entries && e.isDir
      ensures e.name != name
    {
      if e.name == name {
        assert Numbered(e, prefix);
      }
    }
  }

  /** `maybe_roll_promoted_dir`. `seedFiles` is the number of `.rs` files in
      the current directory, or `None` when inspecting it raised;
      `created` says whether creating the picked directory succeeded (a
      failure raises inside the same `try`, so the current directory is
      kept). An empty prefix stands for "new". A full directory rolls to
      the next numbered one, which did not exist before. */
  method MaybeRollPromotedDir(current: string, maxFiles: int, seedFiles: Option<nat>, created: bool,
                              entries: seq<DirEntry>, prefix: string)
    returns (dir: string)
    ensures maxFiles <= 0 || seedFiles.None? || seedFiles.value < maxFiles || !created ==> dir == current
    ensures maxFiles > 0 && seedFiles.Some? && seedFiles.value >= maxFiles && created ==>
      var p := if prefix == "" then "new" else prefix;
      && dir == p + NatToDigits(MaxSuffix(entries, p) + 1)
      && StartsWith(dir, p) && IsDigits(dir[|p|..])
      && forall e :: e in entries && e.isDir ==> e.name != dir
  {
    if maxFiles <= 0 {
      return current;
    }
    if seedFiles.None? {
      return current;
    }
    if seedFiles.value >= maxFiles {
      var p := if prefix == "" then "new" else prefix;
      dir := PickNextNewSeedDir(entries, p);
      if !created {
        return current;
      }
      NextDirIsFresh(entries, p, dir);
      return dir;
    }
    return current;
  }
}
