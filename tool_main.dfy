/** The mutation tool's entry point (`main`): the parsed input file is
    either answered without change (the metrics and debug modes) or
    handed to the mutator the mode names; the tool then reports the
    choice and the outcome on standard error and writes the printed tree.
    Reading and writing files, the parser and the printer are outside the
    model: the parser's result is a parameter, and the output file is
    either the input text as read or a printed tree. */
module ToolMain {
  import opened Wrappers
  import opened Syntax
  import opened ChoiceLine
  import opened Framework
  import Flatten
  import Ttdn
  import AddItems
  import ConstraintMutator
  import ProjectionRewrite
  import ProjectionMutator

  /** The command line: the mode, the forced site index, whether to emit
      the choice line, and the two forced choice indices. */
  datatype Args = Args(mode: string, index: Option<nat>, emitChoice: bool,
                       constraintIndex: Option<nat>, choiceIndex: Option<nat>)

  /** What `parse_file` gave for the input text. */
  datatype Parsed = ParsedFile(file: File) | ParseError(message: string)

  /** What lands in the output file: the input text as it was read, or a
      tree as the printer renders it. */
  datatype Written = InputText | Printed(file: File)

  /** The `ttdn_metrics` payload, one number per JSON key. */
  datatype Metrics = Metrics(constraintSites: nat, constraintChoiceSum: nat,
                             rewriteSites: nat, rewriteChoiceSum: nat,
                             traits: nat, types: nat, implEdges: nat, supertraitEdges: nat,
                             traitAssocTypes: nat, implAssocBindings: nat)

  /** One run: the metrics printed on standard output (the debug listings
      are not modelled), the standard-error lines, and the output file. */
  datatype Report = Report(metrics: Option<Metrics>, stderr: seq<string>, written: Written)

  const PARSE_FAILED := "Parse failed: "
  const UNKNOWN_MODE := "Unknown mode: "
  const PRETTY_PANIC := "prettyplease panicked; falling back to token-based output"

  /** The three listing modes, which print sites and leave the file alone. */
  predicate IsDebugMode(mode: string) {
    mode == "constraint_debug" || mode == "constraint_debug_pretty" || mode == "projection_debug_pretty"
  }

  /** The modes the dispatch `match` knows. */
  predicate IsMutationMode(mode: string) {
    mode == "add_trait" || mode == "add_impl" || mode == "constraint_injection" || mode == "projection_rewrite"
  }

  /** The two structural modes, whose mutator has a single site. */
  predicate IsStructuralMode(mode: string) {
    mode == "add_trait" || mode == "add_impl"
  }

  /** A mode with no whitespace, so that its choice line can be read back. */
  predicate IsWord(mode: string) {
    mode != [] && forall i :: 0 <= i < |mode| ==> !Text.IsSpace(mode[i])
  }

  /** The number of status lines (`Mutation successful.` or `No mutation
      performed.`) among `lines`. */
  function StatusLines(lines: seq<string>): nat {
    if lines == [] then 0
    else (if lines[0] == SUCCESS_LINE || lines[0] == NOOP_LINE then 1 else 0) + StatusLines(lines[1..])
  }

  lemma {:induction false} StatusLinesAppend(a: seq<string>, b: seq<string>)
    ensures StatusLines(a + b) == StatusLines(a) + StatusLines(b)
    decreases |a|
  {
    if a == [] {
      assert a + b == b;
    } else {
      assert (a + b)[0] == a[0];
      assert (a + b)[1..] == a[1..] + b;
      StatusLinesAppend(a[1..], b);
    }
  }

  /** The standard-error lines of a run that reached the dispatch: the
      unknown-mode note, the choice line when asked for, the status line,
      and the printer's fallback note. */
  function MutationLog(args: Args, meta: ConstraintMutator.Meta, prettyPanics: bool): seq<string> {
    (if IsMutationMode(args.mode) then [] else [UNKNOWN_MODE + args.mode])
    + (if args.emitChoice
       then [FormatChoiceLine(args.mode, meta.siteCount, meta.siteIndex, meta.mutated,
                              meta.choiceCount, meta.choiceIndex)]
       else [])
    + [StatusLine(meta.mutated)]
    + (if prettyPanics then [PRETTY_PANIC] else [])
  }

  /** Exactly one status line is printed, second to last when the printer
      falls back and last otherwise, and it says whether the mutator
      reported a mutation. */
  lemma OneStatusLine(args: Args, meta: ConstraintMutator.Meta, prettyPanics: bool)
    ensures StatusLines(MutationLog(args, meta, prettyPanics)) == 1
    ensures var log := MutationLog(args, meta, prettyPanics);
            var k := |log| - (if prettyPanics then 2 else 1);
            0 <= k < |log| && (log[k] == SUCCESS_LINE <==> meta.mutated) && (log[k] == NOOP_LINE <==> !meta.mutated)
  {
    var note: seq<string> := if IsMutationMode(args.mode) then [] else [UNKNOWN_MODE + args.mode];
    var line := FormatChoiceLine(args.mode, meta.siteCount, meta.siteIndex, meta.mutated,
                                 meta.choiceCount, meta.choiceIndex);
    var choice: seq<string> := if args.emitChoice then [line] else [];
    var status := [StatusLine(meta.mutated)];
    var tail: seq<string> := if prettyPanics then [PRETTY_PANIC] else [];
    assert MutationLog(args, meta, prettyPanics) == note + choice + status + tail;
    assert StatusLines(note) == 0 by {
      if note != [] {
        assert note[0][0] == 'U';
        assert note[1..] == [];
      }
    }
    assert StatusLines(choice) == 0 by {
      if choice != [] {
        assert line[1] == 'U';
        assert choice[1..] == [];
      }
    }
    assert StatusLines(status) == 1 by {
      assert status[1..] == [];
    }
    assert StatusLines(tail) == 0 by {
      if tail != [] {
        assert tail[1..] == [];
      }
    }
    StatusLinesAppend(note, choice);
    StatusLinesAppend(note + choice, status);
    StatusLinesAppend(note + choice + status, tail);
  }

  /** The choice line, when asked for, sits just before the status line
      and reads back as the run's numbers, with the choice part exactly
      for the two choice-space modes. */
  lemma ChoiceLineReadsBack(args: Args, meta: ConstraintMutator.Meta, prettyPanics: bool)
    requires args.emitChoice && IsWord(args.mode)
    ensures var log := MutationLog(args, meta, prettyPanics);
            var k := |log| - (if prettyPanics then 3 else 2);
            0 <= k < |log|
            && ParseChoiceLine(log[k])
               == Some(Choice(args.mode, meta.siteCount, meta.siteIndex, if meta.mutated then 1 else 0,
                              if HasChoicePart(args.mode) then Some((meta.choiceCount, meta.choiceIndex)) else None))
  {
    var note: seq<string> := if IsMutationMode(args.mode) then [] else [UNKNOWN_MODE + args.mode];
    var line := FormatChoiceLine(args.mode, meta.siteCount, meta.siteIndex, meta.mutated,
                                 meta.choiceCount, meta.choiceIndex);
    var tail: seq<string> := if prettyPanics then [PRETTY_PANIC] else [];
    var log := MutationLog(args, meta, prettyPanics);
    assert 0 <= |log| - (if prettyPanics then 3 else 2) && log[|log| - (if prettyPanics then 3 else 2)] == line by {
      assert log == note + [line] + [StatusLine(meta.mutated)] + tail;
    }
    assert ParseChoiceLine(line)
           == Some(Choice(args.mode, meta.siteCount, meta.siteIndex, if meta.mutated then 1 else 0,
                          if HasChoicePart(args.mode) then Some((meta.choiceCount, meta.choiceIndex)) else None)) by {
      ChoiceLineRoundTrip(args.mode, meta.siteCount, meta.siteIndex, meta.mutated,
                          meta.choiceCount, meta.choiceIndex);
    }
  }

  /** The choice a mutating run reports lies within the counts it reports,
      and a forced choice index that is in range is the one taken. */
  predicate Honours(meta: ConstraintMutator.Meta, requested: Option<nat>) {
    meta.mutated ==>
      && meta.siteIndex < meta.siteCount && meta.choiceIndex < meta.choiceCount
      && (requested.Some? && requested.value < meta.choiceCount ==> meta.choiceIndex == requested.value)
  }

  /** `add_trait` and `add_impl` as `run_with_meta` over a mutator with a
      single site: the site index is 0, the count 1, and the item the
      mutator builds is appended. The trait mutator is built without a
      forced pattern. */
  method StructuralRun(file: File, addTrait: bool) returns (r: File, meta: ConstraintMutator.Meta)
    ensures meta.mutated <==> r != file
    ensures meta.siteCount == 1 && meta.siteIndex == 0 && meta.choiceCount == 0 && meta.choiceIndex == 0
    ensures meta.mutated ==> |r| == |file| + 1 && r[..|file|] == file
    ensures addTrait && meta.mutated ==> r[|file|].TraitDef? && r[|file|].name !in AddItems.UsedNames(file)
    ensures !addTrait && meta.mutated ==>
      exists types :: (forall n :: n in types <==> n in Ttdn.RawInfo(file).types) && AddItems.NewImpl(file, types, r[|file|])
  {
    var o: Outcome;
    if addTrait {
      o := AddItems.AddTraitMutate(file, None);
    } else {
      ghost var info;
      o, info := AddItems.AddImplMutate(file);
      assert o.mutated ==> AddItems.NewImpl(file, info.types, o.file[|file|]);
    }
    r, meta := o.file, ConstraintMutator.Meta(o.mutated, 0, 1, 0, 0);
  }

  /** `constraint_injection`: the constraint index, else the forced index,
      picks the flattened choice. */
  method ConstraintRun(file: File, args: Args) returns (r: File, meta: ConstraintMutator.Meta)
    ensures meta.mutated <==> r != file
    ensures meta.siteCount == |Ttdn.ConstraintSites(file)|
    ensures Honours(meta, ConstraintMutator.Requested(args.index, args.constraintIndex))
  {
    ghost var info, flat, counts, idx, wp;
    r, meta, info, flat, counts, idx, wp :=
      ConstraintMutator.RunWithMetaAndConstraint(file, args.index, args.constraintIndex);
    if meta.mutated {
      ConstraintMutator.EntriesMembers(Ttdn.ConstraintSites(file), counts);
      assert flat[meta.choiceIndex] in flat;
    }
  }

  /** `projection_rewrite`: the choice index, else the forced index, picks
      the flattened replacement. */
  method ProjectionRun(file: File, args: Args) returns (r: File, meta: ConstraintMutator.Meta)
    ensures meta.mutated <==> r != file
    ensures Honours(meta, ConstraintMutator.Requested(args.index, args.choiceIndex))
  {
    ghost var m, flat, changed;
    r, meta, m, flat, changed := ProjectionMutator.RunWithMetaAndChoice(file, args.index, args.choiceIndex);
  }

  /** The dispatch `match`: an unknown mode mutates nothing and says so;
      every mode reports a mutation exactly when the tree changed. */
  method Dispatch(file: File, args: Args) returns (r: File, meta: ConstraintMutator.Meta, note: seq<string>)
    ensures meta.mutated <==> r != file
    ensures note == if IsMutationMode(args.mode) then [] else [UNKNOWN_MODE + args.mode]
    ensures !IsMutationMode(args.mode) ==> r == file && meta == ConstraintMutator.Meta(false, 0, 0, 0, 0)
    ensures IsStructuralMode(args.mode) ==> meta.siteCount == 1 && meta.siteIndex == 0
    ensures args.mode == "constraint_injection" ==>
              Honours(meta, ConstraintMutator.Requested(args.index, args.constraintIndex))
    ensures args.mode == "projection_rewrite" ==>
              Honours(meta, ConstraintMutator.Requested(args.index, args.choiceIndex))
  {
    note := [];
    if IsStructuralMode(args.mode) {
      r, meta := StructuralRun(file, args.mode == "add_trait");
    } else if args.mode == "constraint_injection" {
      r, meta := ConstraintRun(file, args);
    } else if args.mode == "projection_rewrite" {
      r, meta := ProjectionRun(file, args);
    } else {
      note := [UNKNOWN_MODE + args.mode];
      r, meta := file, ConstraintMutator.Meta(false, 0, 0, 0, 0);
    }
  }

  /** `main` after the input text is read: a parse error leaves the input
      text in place with a no-mutation status; `ttdn_metrics` prints the
      metrics of the parsed file; the listing modes write the input text
      back; every other mode goes through the dispatch and writes the
      (possibly) mutated tree, with the status line saying whether it
      differs from the parsed one. `prettyPanics` stands for the printer
      failing, after which the same tree is written token by token. */
  method RunTool(parsed: Parsed, args: Args, prettyPanics: bool)
    returns (rep: Report, ghost tree: File, ghost meta: ConstraintMutator.Meta,
             ghost info: Ttdn.TtdnInfo, ghost m: map<string, seq<ProjectionRewrite.Candidate>>)
    ensures parsed.ParseError? ==> rep == Report(None, [PARSE_FAILED + parsed.message, NOOP_LINE], InputText)
    ensures parsed.ParsedFile? && IsDebugMode(args.mode) ==> rep == Report(None, [], InputText)
    ensures parsed.ParsedFile? && args.mode == "ttdn_metrics" ==>
              && rep.stderr == [] && rep.written == InputText && rep.metrics.Some?
              && var file, mt := parsed.file, rep.metrics.value;
                 && mt.constraintSites == |Ttdn.ConstraintSites(file)|
                 && mt.constraintChoiceSum
                    == Flatten.SumOf(Ttdn.ConstraintSites(file),
                                     Ttdn.ChoicesAt(Ttdn.CustomTraits(file), Ttdn.RawInfo(file).implEdges))
                 && ProjectionMutator.MapOfFile(file, m)
                 && mt.rewriteSites
                    == ProjectionRewrite.Count(ProjectionRewrite.FileOcc(file), ProjectionMutator.CollectEnv(m))
                 && mt.rewriteChoiceSum == ProjectionMutator.ChoiceSum(ProjectionRewrite.FileOcc(file), m)
                 && (forall n :: n in info.traits <==> n in Ttdn.RawInfo(file).traits)
                 && (forall n :: n in info.types <==> n in Ttdn.RawInfo(file).types)
                 && mt.traits == |info.traits| && mt.types == |info.types|
                 && mt.implEdges == |info.implEdges| && mt.supertraitEdges == |info.supertraitEdges|
                 && mt.traitAssocTypes == |info.traitAssocTypes| && mt.implAssocBindings == |info.bindings|
    ensures parsed.ParsedFile? && !IsDebugMode(args.mode) && args.mode != "ttdn_metrics" ==>
              && rep.metrics == None && rep.written == Printed(tree)
              && rep.stderr == MutationLog(args, meta, prettyPanics)
              && StatusLines(rep.stderr) == 1
              && (meta.mutated <==> tree != parsed.file)
              && (!IsMutationMode(args.mode) ==> tree == parsed.file && !meta.mutated)
  {
    tree, meta, info, m := [], ConstraintMutator.Meta(false, 0, 0, 0, 0), Ttdn.EmptyInfo, map[];
    if parsed.ParseError? {
      return Report(None, [PARSE_FAILED + parsed.message, NOOP_LINE], InputText), tree, meta, info, m;
    }
    var file := parsed.file;
    tree := file;
    if args.mode == "ttdn_metrics" {
      var ti := Ttdn.FromFile(file);
      info := ti;
      var c := Ttdn.ConstraintChoiceMetricsOf(file);
      var p;
      p, m := ProjectionMutator.ProjectionChoiceMetrics(file);
      var mt := Metrics(c.constraintSites, c.constraintChoiceSum, p.rewriteSites, p.rewriteChoiceSum,
                        |ti.traits|, |ti.types|, |ti.implEdges|, |ti.supertraitEdges|,
                        |ti.traitAssocTypes|, |ti.bindings|);
      return Report(Some(mt), [], InputText), tree, meta, info, m;
    }
    if IsDebugMode(args.mode) {
      return Report(None, [], InputText), tree, meta, info, m;
    }
    var out, mm, note := Dispatch(file, args);
    tree, meta := out, mm;
    var stderr := note;
    if args.emitChoice {
      stderr := stderr + [FormatChoiceLine(args.mode, mm.siteCount, mm.siteIndex, mm.mutated,
                                           mm.choiceCount, mm.choiceIndex)];
    }
    stderr := stderr + [StatusLine(mm.mutated)];
    if prettyPanics {
      stderr := stderr + [PRETTY_PANIC];
    }
    OneStatusLine(args, mm, prettyPanics);
    rep := Report(None, stderr, Printed(out));
  }
}
