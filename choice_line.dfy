/** The two status lines the mutation tool writes to stderr after a run,
    and how the fuzzing worker reads the `MUTATION_CHOICE` line back. The
    worker's regular expressions are modelled as a left-to-right parser of
    the line: `\s+` is a non-empty run of whitespace, `(\d+)` a non-empty
    run of decimal digits read as a number and `(\S+)` a non-empty run of
    non-whitespace characters. */
module ChoiceLine {
  import opened Wrappers
  import opened Text

  const CHOICE_TAG := "MUTATION_CHOICE"
  const SUCCESS_LINE := "Mutation successful."
  const NOOP_LINE := "No mutation performed."

  /** The numbers a `MUTATION_CHOICE` line carries; `choice` holds
      `(choice_count, choice_index)` when the line has them. */
  datatype Choice = Choice(mode: string, count: nat, index: nat, mutated: nat, choice: Option<(nat, nat)>)

  /** The two modes whose line carries the flattened choice numbers. */
  predicate HasChoicePart(mode: string) {
    mode == "constraint_injection" || mode == "projection_rewrite"
  }

  /** ` <name><n>` as `eprintln!` writes it with `{}` for an unsigned
      number. */
  function Field(name: string, n: nat): string {
    " " + name + NatToDigits(n)
  }

  /** The `--emit-choice` line of the tool's `main`: mode, candidate count,
      chosen index and the 0/1 mutated flag, followed by the choice count
      and choice index for the two choice-space modes. */
  function FormatChoiceLine(mode: string, count: nat, index: nat, mutated: bool,
                            choiceCount: nat, choiceIndex: nat): string
  {
    CHOICE_TAG + " mode=" + mode + (Fields(MAIN_NAMES, [count, index, if mutated then 1 else 0])
      + ChoiceSuffix(mode, choiceCount, choiceIndex))
  }

  const MAIN_NAMES: seq<string> := ["count=", "index=", "mutated="]
  const CHOICE_NAMES: seq<string> := ["choice_count=", "choice_index="]

  /** The ` choice_count=… choice_index=…` ending, present only for the two
      choice-space modes. */
  function ChoiceSuffix(mode: string, choiceCount: nat, choiceIndex: nat): string {
    if HasChoicePart(mode) then Fields(CHOICE_NAMES, [choiceCount, choiceIndex]) else ""
  }

  /** The numeric fields `names[i]` = `values[i]`, each after one space. */
  function Fields(names: seq<string>, values: seq<nat>): string
    requires |names| == |values|
    decreases |names|
  {
    if names == [] then "" else Field(names[0], values[0]) + Fields(names[1..], values[1..])
  }

  /** The final status line: exactly one of the two, matching `mutated`. */
  function StatusLine(mutated: bool): (line: string)
    ensures line == SUCCESS_LINE <==> mutated
    ensures line == NOOP_LINE <==> !mutated
  {
    if mutated then SUCCESS_LINE else NOOP_LINE
  }

  /** The longest prefix of digits. */
  function DigitRun(s: string): (r: string)
    ensures |r| <= |s| && r == s[..|r|] && AllDigits(r)
    ensures |r| == |s| || !IsDigit(s[|r|])
    decreases |s|
  {
    if s != [] && IsDigit(s[0]) then [s[0]] + DigitRun(s[1..]) else []
  }

  /** The longest prefix of non-whitespace characters. */
  function WordRun(s: string): (r: string)
    ensures |r| <= |s| && r == s[..|r|]
    ensures forall i :: 0 <= i < |r| ==> !IsSpace(r[i])
    ensures |r| == |s| || IsSpace(s[|r|])
    decreases |s|
  {
    if s != [] && !IsSpace(s[0]) then [s[0]] + WordRun(s[1..]) else []
  }

  /** `\s+` followed by the literal `name`: the rest of `s` after both. */
  function SpaceThen(s: string, name: string): Option<string> {
    if s != [] && IsSpace(s[0]) && StartsWith(TrimStart(s), name) then Some(TrimStart(s)[|name|..])
    else None
  }

  /** `\s+<name>(\d+)`: the number and the rest of `s`. */
  function ParseField(s: string, name: string): Option<(nat, string)> {
    match SpaceThen(s, name)
    case None => None
    case Some(rest) =>
      var d := DigitRun(rest);
      if d == [] then None else Some((DigitsValue(d), rest[|d|..]))
  }

  /** `\s+<name>(\S+)`: the word and the rest of `s`. */
  function ParseWordField(s: string, name: string): Option<(string, string)> {
    match SpaceThen(s, name)
    case None => None
    case Some(rest) =>
      var w := WordRun(rest);
      if w == [] then None else Some((w, rest[|w|..]))
  }

  /** The numeric fields named by `names`, in order: their values and the
      rest of `s`. */
  function ParseNums(s: string, names: seq<string>): (r: Option<(seq<nat>, string)>)
    ensures r.Some? ==> |r.value.0| == |names|
    decreases |names|
  {
    if names == [] then Some(([], s))
    else
      match ParseField(s, names[0])
      case None => None
      case Some((n, r1)) =>
        match ParseNums(r1, names[1..])
        case None => None
        case Some((ns, r2)) => Some(([n] + ns, r2))
  }

  /** The optional `choice_count=(\d+)\s+choice_index=(\d+)` part. */
  function ParseChoicePart(s: string): Option<(nat, nat)> {
    match ParseNums(s, CHOICE_NAMES)
    case None => None
    case Some((ns, _)) => Some((ns[0], ns[1]))
  }

  /** The worker's reading of a `MUTATION_CHOICE` line. */
  function ParseChoiceLine(line: string): Option<Choice> {
    if !StartsWith(line, CHOICE_TAG) then None
    else
      match ParseWordField(line[|CHOICE_TAG|..], "mode=")
      case None => None
      case Some((mode, r1)) =>
        match ParseNums(r1, MAIN_NAMES)
        case None => None
        case Some((ns, r2)) => Some(Choice(mode, ns[0], ns[1], ns[2], ParseChoicePart(r2)))
  }

  /** Names the parser can find after a space: non-empty and not starting
      with whitespace. */
  predicate GoodNames(names: seq<string>) {
    forall i :: 0 <= i < |names| ==> names[i] != [] && !IsSpace(names[i][0])
  }

  /** A single space before a name that does not start with whitespace is
      the `\s+` run, and the name is matched after it. */
  lemma SpaceThenOf(name: string, rest: string)
    requires name != [] && !IsSpace(name[0])
    ensures SpaceThen([' '] + (name + rest), name) == Some(rest)
  {
    var t := name + rest;
    var s := [' '] + t;
    assert s[1..] == t;
    assert TrimStart(s) == TrimStart(t);
    assert t[0] == name[0];
    assert TrimStart(t) == t;
    assert t[..|name|] == name;
    assert t[|name|..] == rest;
  }

  /** A field written by `Field` is read back, and the rest is untouched,
      whenever the rest does not continue the digits. */
  lemma FieldRoundTrip(name: string, n: nat, rest: string)
    requires name != [] && !IsSpace(name[0])
    requires rest == [] || !IsDigit(rest[0])
    ensures ParseField(Field(name, n) + rest, name) == Some((n, rest))
  {
    var d := NatToDigits(n);
    assert Field(name, n) + rest == [' '] + (name + (d + rest));
    SpaceThenOf(name, d + rest);
    DigitRunOf(d, rest);
    DigitsRoundTrip(n);
    assert (d + rest)[|d|..] == rest;
  }

  lemma {:induction false} DigitRunOf(d: string, rest: string)
    requires AllDigits(d)
    requires rest == [] || !IsDigit(rest[0])
    ensures DigitRun(d + rest) == d
    decreases |d|
  {
    if d == [] {
      assert d + rest == rest;
    } else {
      assert (d + rest)[1..] == d[1..] + rest;
      DigitRunOf(d[1..], rest);
      assert [d[0]] + d[1..] == d;
    }
  }

  lemma {:induction false} WordRunOf(w: string, rest: string)
    requires forall i :: 0 <= i < |w| ==> !IsSpace(w[i])
    requires rest == [] || IsSpace(rest[0])
    ensures WordRun(w + rest) == w
    decreases |w|
  {
    if w == [] {
      assert w + rest == rest;
    } else {
      assert (w + rest)[1..] == w[1..] + rest;
      WordRunOf(w[1..], rest);
      assert [w[0]] + w[1..] == w;
    }
  }

  /** The mode field is read back whenever the mode is a non-empty word and
      whitespace follows it. */
  lemma WordFieldRoundTrip(name: string, w: string, rest: string)
    requires name != [] && !IsSpace(name[0])
    requires w != [] && forall i :: 0 <= i < |w| ==> !IsSpace(w[i])
    requires rest != [] && IsSpace(rest[0])
    ensures ParseWordField([' '] + (name + (w + rest)), name) == Some((w, rest))
  {
    SpaceThenOf(name, w + rest);
    WordRunOf(w, rest);
    assert (w + rest)[|w|..] == rest;
  }

  /** Fields written by `Fields` are read back in order, and the rest is
      untouched, whenever the rest is empty or starts with a space. */
  lemma {:induction false} FieldsRoundTrip(names: seq<string>, values: seq<nat>, rest: string)
    requires |names| == |values| && GoodNames(names)
    requires rest == [] || rest[0] == ' '
    ensures ParseNums(Fields(names, values) + rest, names) == Some((values, rest))
    decreases |names|
  {
    if names == [] {
      assert Fields(names, values) + rest == rest;
    } else {
      var tail := Fields(names[1..], values[1..]) + rest;
      GoodNamesTail(names);
      FieldsRoundTrip(names[1..], values[1..], rest);
      FieldsStart(names[1..], values[1..], rest);
      FieldsCons(names, values, rest);
      FieldRoundTrip(names[0], values[0], tail);
      ParseNumsStep(Fields(names, values) + rest, names, values, tail, rest);
    }
  }

  lemma GoodNamesTail(names: seq<string>)
    requires names != [] && GoodNames(names)
    ensures GoodNames(names[1..])
  {
    forall i | 0 <= i < |names[1..]| ensures names[1..][i] != [] && !IsSpace(names[1..][i][0]) {
      assert names[1..][i] == names[i + 1];
    }
  }

  lemma FieldsCons(names: seq<string>, values: seq<nat>, rest: string)
    requires names != [] && |names| == |values|
    ensures Fields(names, values) + rest == Field(names[0], values[0]) + (Fields(names[1..], values[1..]) + rest)
  {
  }

  /** One step of `ParseNums`. */
  lemma ParseNumsStep(s: string, names: seq<string>, values: seq<nat>, r1: string, r2: string)
    requires names != [] && values != []
    requires ParseField(s, names[0]) == Some((values[0], r1))
    requires ParseNums(r1, names[1..]) == Some((values[1..], r2))
    ensures ParseNums(s, names) == Some((values, r2))
  {
    assert [values[0]] + values[1..] == values;
  }

  /** Text written by `Fields` starts with a space unless it is empty. */
  lemma FieldsStart(names: seq<string>, values: seq<nat>, rest: string)
    requires |names| == |values|
    requires rest == [] || rest[0] == ' '
    ensures Fields(names, values) + rest == [] || (Fields(names, values) + rest)[0] == ' '
  {
  }

  lemma NamesAreGood()
    ensures GoodNames(MAIN_NAMES) && GoodNames(CHOICE_NAMES)
    ensures !IsSpace('m')
  {
  }

  /** The choice numbers are read back from what `FormatChoiceLine` writes
      after the mutated flag, and a line without them reads as having none. */
  lemma ChoiceSuffixRoundTrip(mode: string, cc: nat, ci: nat)
    ensures ParseChoicePart(ChoiceSuffix(mode, cc, ci)) == if HasChoicePart(mode) then Some((cc, ci)) else None
  {
    NamesAreGood();
    if HasChoicePart(mode) {
      var t := Fields(CHOICE_NAMES, [cc, ci]);
      assert t == t + [];
      FieldsRoundTrip(CHOICE_NAMES, [cc, ci], []);
    }
  }

  /** What the worker reads from the tool's line is what the tool wrote:
      the mode, the candidate count, the chosen index and the flag, plus
      the choice numbers exactly for the two choice-space modes. The mode is
      a single word, as every mode the worker passes is. */
  lemma ChoiceLineRoundTrip(mode: string, count: nat, index: nat, mutated: bool, cc: nat, ci: nat)
    requires mode != [] && forall i :: 0 <= i < |mode| ==> !IsSpace(mode[i])
    ensures ParseChoiceLine(FormatChoiceLine(mode, count, index, mutated, cc, ci))
      == Some(Choice(mode, count, index, if mutated then 1 else 0,
                     if HasChoicePart(mode) then Some((cc, ci)) else None))
  {
    NamesAreGood();
    var vals: seq<nat> := [count, index, if mutated then 1 else 0];
    var suffix := ChoiceSuffix(mode, cc, ci);
    var r1 := Fields(MAIN_NAMES, vals) + suffix;
    FieldsStart(CHOICE_NAMES, [cc, ci], []);
    assert suffix == [] || suffix[0] == ' ';
    FieldsStart(MAIN_NAMES, vals, suffix);
    WordFieldRoundTrip("mode=", mode, r1);
    FieldsRoundTrip(MAIN_NAMES, vals, suffix);
    ChoiceSuffixRoundTrip(mode, cc, ci);
    TagSplit(mode, r1);
    ParseLineOf(FormatChoiceLine(mode, count, index, mutated, cc, ci), mode, r1, vals, suffix);
  }

  /** Where the tag ends in a line the tool writes. */
  lemma TagSplit(mode: string, r1: string)
    ensures StartsWith(CHOICE_TAG + " mode=" + mode + r1, CHOICE_TAG)
    ensures (CHOICE_TAG + " mode=" + mode + r1)[|CHOICE_TAG|..] == [' '] + ("mode=" + (mode + r1))
  {
    var line := CHOICE_TAG + " mode=" + mode + r1;
    assert line == CHOICE_TAG + ([' '] + ("mode=" + (mode + r1)));
  }

  /** `ParseChoiceLine` from the results of its parts. */
  lemma ParseLineOf(line: string, mode: string, r1: string, ns: seq<nat>, r2: string)
    requires StartsWith(line, CHOICE_TAG)
    requires ParseWordField(line[|CHOICE_TAG|..], "mode=") == Some((mode, r1))
    requires ParseNums(r1, MAIN_NAMES) == Some((ns, r2))
    ensures ParseChoiceLine(line) == Some(Choice(mode, ns[0], ns[1], ns[2], ParseChoicePart(r2)))
  {
  }
}
