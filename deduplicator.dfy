/** Grouping of saved result cases by their stderr signature. A category
    directory is its listing in iteration order (`None` when it does not
    exist); the MD5 digest is modelled by the normalised text it is taken
    of, so two cases share a group exactly when their normalised texts are
    equal. */
module Deduplicator {
  import opened Wrappers
  import opened Text

  /** The state of a case directory's `detail.log`. */
  datatype DetailLog = NoLog | Unreadable | Log(text: string)

  /** One entry of the category directory. */
  datatype CaseEntry = CaseEntry(name: string, isDir: bool, log: DetailLog)

  const STDERR_MARK := "Stderr:"

  /** The text the signature is taken of: the part between the first and
      the second `Stderr:` marker (located by `Text.SecondPieceStart` and `Text.SecondPieceEnd`), or the
      whole log without a marker. */
  function StderrSegment(content: string): string {
    if Contains(content, STDERR_MARK) then SplitSecond(content, STDERR_MARK) else content
  }

  /** The grouping key of a log: its stderr segment with all whitespace
      removed. */
  function Signature(content: string): string {
    RemoveSpaces(StderrSegment(content))
  }

  /** Two marker-free logs that differ by one whitespace character fall in
      the same group, and no signature holds whitespace. */
  lemma WhitespaceDoesNotSplitGroups(a: string, c: char, b: string)
    requires IsSpace(c)
    requires !Contains(a + [c] + b, STDERR_MARK) && !Contains(a + b, STDERR_MARK)
    ensures Signature(a + [c] + b) == Signature(a + b)
    ensures forall i :: 0 <= i < |Signature(a + b)| ==> !IsSpace(Signature(a + b)[i])
  {
    RemoveSpacesIgnoresSpace(a, c, b);
  }

  /** Whether the loop hashes this entry: a directory with a readable log. */
  predicate Processed(e: CaseEntry) {
    e.isDir && e.log.Log?
  }

  function SignatureOf(e: CaseEntry): string
    requires Processed(e)
  {
    Signature(e.log.text)
  }

  /** The (name, signature) pairs of the processed entries, in listing
      order. */
  function Keyed(entries: seq<CaseEntry>): seq<(string, string)>
    decreases |entries|
  {
    if entries == [] then []
    else
      var last := entries[|entries| - 1];
      Keyed(entries[..|entries| - 1]) + (if Processed(last) then [(last.name, SignatureOf(last))] else [])
  }

  /** A pair is keyed exactly when a processed entry has that name and
      signature. */
  lemma {:induction false} KeyedMembers(entries: seq<CaseEntry>)
    ensures forall n, sig :: (n, sig) in Keyed(entries) <==>
      exists j :: 0 <= j < |entries| && Processed(entries[j]) && entries[j].name == n && SignatureOf(entries[j]) == sig
    decreases |entries|
  {
    if entries != [] {
      var init := entries[..|entries| - 1];
      assert forall j :: 0 <= j < |init| ==> init[j] == entries[j];
      KeyedMembers(init);
    }
  }

  /** The names filed under `sig`, in order. */
  function NamesUnder(ps: seq<(string, string)>, sig: string): seq<string>
    decreases |ps|
  {
    if ps == [] then []
    else NamesUnder(ps[..|ps| - 1], sig) + (if ps[|ps| - 1].1 == sig then [ps[|ps| - 1].0] else [])
  }

  /** The mapping built by appending each name to its signature's list. */
  function GroupPairs(ps: seq<(string, string)>): map<string, seq<string>>
    decreases |ps|
  {
    if ps == [] then map[]
    else
      var g := GroupPairs(ps[..|ps| - 1]);
      var sig := ps[|ps| - 1].1;
      g[sig := (if sig in g then g[sig] else []) + [ps[|ps| - 1].0]]
  }

  /** `deduplicate`: a missing category gives the empty mapping; otherwise
      every processed entry's name is appended to its signature's group. */
  method Deduplicate(category: Option<seq<CaseEntry>>) returns (groups: map<string, seq<string>>)
    ensures category.None? ==> groups == map[]
    ensures category.Some? ==> groups == GroupPairs(Keyed(category.value))
  {
    groups := map[];
    if category.None? {
      return;
    }
    var entries := category.value;
    var k := 0;
    while k < |entries|
      invariant 0 <= k <= |entries|
      invariant groups == GroupPairs(Keyed(entries[..k]))
    {
      var e := entries[k];
      assert entries[..k + 1][..k] == entries[..k];
      assert Keyed(entries[..k + 1]) == Keyed(entries[..k]) + (if Processed(e) then [(e.name, SignatureOf(e))] else []);
      if !e.isDir || e.log.NoLog? {
        // not a case directory, or no detail.log: skipped
        assert Keyed(entries[..k + 1]) == Keyed(entries[..k]);
      } else if e.log.Unreadable? {
        // the read raised: logged and skipped
        assert Keyed(entries[..k + 1]) == Keyed(entries[..k]);
      } else {
        var sig := Signature(e.log.text);
        var group := if sig in groups then groups[sig] else [];
        groups := groups[sig := group + [e.name]];
        var ps := Keyed(entries[..k]) + [(e.name, sig)];
        assert ps[..|ps| - 1] == Keyed(entries[..k]);
        assert Keyed(entries[..k + 1]) == ps;
      }
      k := k + 1;
    }
    assert entries[..k] == entries;
  }

  /** The groups are exactly the signatures that occur, and each holds the
      names filed under it in order. */
  lemma {:induction false} GroupsAreSignatureClasses(ps: seq<(string, string)>)
    ensures forall sig :: sig in GroupPairs(ps) <==> exists n :: (n, sig) in ps
    ensures forall sig :: sig in GroupPairs(ps) ==> GroupPairs(ps)[sig] == NamesUnder(ps, sig)
    decreases |ps|
  {
    if ps != [] {
      var init := ps[..|ps| - 1];
      GroupsAreSignatureClasses(init);
      forall sig | sig !in GroupPairs(init)
        ensures NamesUnder(init, sig) == []
      {
        NamesUnderMembers(init, sig);
        if NamesUnder(init, sig) != [] {
          assert NamesUnder(init, sig)[0] in NamesUnder(init, sig);
        }
      }
      assert ps == init + [ps[|ps| - 1]];
      assert ps[|ps| - 1] in ps;
      forall sig | sig in GroupPairs(ps)
        ensures exists n :: (n, sig) in ps
      {
        if sig == ps[|ps| - 1].1 {
          assert (ps[|ps| - 1].0, sig) in ps;
        } else {
          var g := GroupPairs(init);
          assert GroupPairs(ps) == g[ps[|ps| - 1].1 := (if ps[|ps| - 1].1 in g then g[ps[|ps| - 1].1] else []) + [ps[|ps| - 1].0]];
          assert sig in g;
          var n :| (n, sig) in init;
          assert (n, sig) in ps;
        }
      }
      forall n, sig | (n, sig) in ps
        ensures (n, sig) in init || (n, sig) == ps[|ps| - 1]
      {
        var j :| 0 <= j < |ps| && ps[j] == (n, sig);
        if j < |ps| - 1 {
          assert init[j] == ps[j];
        }
      }
    }
  }

  /** A name is filed under `sig` exactly when the pair occurs. */
  lemma {:induction false} NamesUnderMembers(ps: seq<(string, string)>, sig: string)
    ensures forall n :: n in NamesUnder(ps, sig) <==> (n, sig) in ps
    decreases |ps|
  {
    if ps != [] {
      var init := ps[..|ps| - 1];
      NamesUnderMembers(init, sig);
      assert ps == init + [ps[|ps| - 1]];
    }
  }

  /** A processed entry is in its own signature's group and, when the names
      in the listing are distinct, in no other group. */
  lemma EachCaseInExactlyOneGroup(entries: seq<CaseEntry>, i: nat)
    requires i < |entries| && Processed(entries[i])
    requires forall a, b :: 0 <= a < b < |entries| ==> entries[a].name != entries[b].name
    ensures SignatureOf(entries[i]) in GroupPairs(Keyed(entries))
    ensures entries[i].name in GroupPairs(Keyed(entries))[SignatureOf(entries[i])]
    ensures forall sig :: sig in GroupPairs(Keyed(entries)) && sig != SignatureOf(entries[i]) ==>
      entries[i].name !in GroupPairs(Keyed(entries))[sig]
  {
    var ps := Keyed(entries);
    var e := entries[i];
    KeyedMembers(entries);
    GroupsAreSignatureClasses(ps);
    assert (e.name, SignatureOf(e)) in ps;
    NamesUnderMembers(ps, SignatureOf(e));
    forall sig | sig in GroupPairs(ps) && sig != SignatureOf(e)
      ensures e.name !in GroupPairs(ps)[sig]
    {
      NamesUnderMembers(ps, sig);
      forall j | 0 <= j < |entries| && Processed(entries[j]) && entries[j].name == e.name
        ensures SignatureOf(entries[j]) != sig
      {
        assert j == i;
      }
    }
  }

  /** The saved report. */
  datatype Report = Report(totalUnique: nat, groups: map<string, seq<string>>)

  /** `save_report`: the report holds the grouping and counts its groups. */
  function SaveReport(groups: map<string, seq<string>>): (r: Report)
    ensures r.groups == groups && r.totalUnique == |groups.Keys|
  {
    Report(|groups.Keys|, groups)
  }

  /** The signatures of the processed entries. */
  function SignaturesOf(entries: seq<CaseEntry>): set<string>
  {
    set j | 0 <= j < |entries| && Processed(entries[j]) :: SignatureOf(entries[j])
  }

  /** The report of a deduplicated listing counts its distinct signatures:
      `total_unique` is the number of different failure signatures among
      the processed cases, and every one of them has a group. */
  lemma ReportCountsSignatures(entries: seq<CaseEntry>)
    ensures SaveReport(GroupPairs(Keyed(entries))).groups.Keys == SignaturesOf(entries)
    ensures SaveReport(GroupPairs(Keyed(entries))).totalUnique == |SignaturesOf(entries)|
  {
    var ps := Keyed(entries);
    GroupsAreSignatureClasses(ps);
    KeyedMembers(entries);
    forall sig | sig in SignaturesOf(entries) ensures sig in GroupPairs(ps) {
      var j :| 0 <= j < |entries| && Processed(entries[j]) && SignatureOf(entries[j]) == sig;
      assert (entries[j].name, sig) in ps;
    }
    forall sig | sig in GroupPairs(ps) ensures sig in SignaturesOf(entries) {
      var n :| (n, sig) in ps;
      var j :| 0 <= j < |entries| && Processed(entries[j]) && entries[j].name == n && SignatureOf(entries[j]) == sig;
    }
    assert GroupPairs(ps).Keys == SignaturesOf(entries);
  }
}
