/** How one `rustc` run is turned into a `CompilationResult`
    (`RustCompiler.compile`). The process itself, the clock and the artifact
    files are inputs: `ProcessOutcome` says how the subprocess ended. Deleting
    the build artifacts is left out: a failure there is logged and
    swallowed, so it never reaches the result. */
module CompilerInterface {
  import opened Wrappers
  import opened Text

  datatype Status = SUCCESS | ERROR | HANG | CRASH | UNKNOWN

  datatype CompilationResult = CompilationResult(
    status: Status,
    returnCode: Option<int>,
    stdout: string,
    stderr: string,
    duration: nat)

  /** How the `subprocess.run` call ended. */
  datatype ProcessOutcome =
    | Exited(code: int, out: string, err: string)
    | TimedOut
    | Raised(message: string)

  /** An internal compiler error shows up as one of two phrases in stderr,
      matched case-insensitively. */
  predicate IsIce(stderr: string) {
    Contains(Lower(stderr), "internal compiler error")
    || Contains(Lower(stderr), "thread 'rustc' panicked")
  }

  /** The status of a process that ran to completion. */
  function ExitStatus(code: int, stderr: string): (s: Status)
    ensures s in {SUCCESS, ERROR, CRASH}
    ensures s == CRASH <==> IsIce(stderr)
    ensures s == SUCCESS <==> code == 0 && !IsIce(stderr)
  {
    var base := if code == 0 then SUCCESS else ERROR;
    if IsIce(stderr) then CRASH else base
  }

  /** The result `compile` returns. */
  function Compile(outcome: ProcessOutcome, duration: nat): (r: CompilationResult)
    ensures r.duration == duration
    ensures outcome.Exited? ==>
      r.returnCode == Some(outcome.code) && r.stdout == outcome.out && r.stderr == outcome.err
    ensures outcome.TimedOut? ==>
      r == CompilationResult(HANG, None, "", "TimeoutExpired", duration)
    ensures outcome.Raised? ==>
      r == CompilationResult(UNKNOWN, Some(-1), "", outcome.message, duration)
  {
    match outcome
    case Exited(code, out, err) =>
      var status := ExitStatus(code, err);
      CompilationResult(status, Some(code), out, err, duration)
    case TimedOut =>
      CompilationResult(HANG, None, "", "TimeoutExpired", duration)
    case Raised(message) =>
      CompilationResult(UNKNOWN, Some(-1), "", message, duration)
  }

  /** Each status comes from exactly one kind of ending: SUCCESS/ERROR/CRASH
      only from a completed process, HANG only from a timeout, UNKNOWN only
      from another exception. */
  lemma StatusOrigin(outcome: ProcessOutcome, duration: nat)
    ensures var r := Compile(outcome, duration);
      && (r.status == HANG <==> outcome.TimedOut?)
      && (r.status == UNKNOWN <==> outcome.Raised?)
      && (r.status == SUCCESS <==> outcome.Exited? && outcome.code == 0 && !IsIce(outcome.err))
      && (r.status == ERROR <==> outcome.Exited? && outcome.code != 0 && !IsIce(outcome.err))
      && (r.status == CRASH <==> outcome.Exited? && IsIce(outcome.err))
      && (r.returnCode.None? <==> outcome.TimedOut?)
  {
  }

  /** The ICE phrases win over the exit code, whatever their letter case. */
  lemma IceWinsOverExitCode(code: int, before: string, after: string)
    ensures ExitStatus(code, before + "Internal Compiler Error" + after) == CRASH
  {
    var phrase1 := "internal compiler error";
    var s1 := before + "Internal Compiler Error" + after;
    var mixed := "Internal Compiler Error";
    assert forall j :: 0 <= j < |mixed| ==> LowerChar(mixed[j]) == phrase1[j];
    forall j | 0 <= j < |phrase1|
      ensures Lower(s1)[|before| + j] == phrase1[j]
    {
      assert s1[|before| + j] == mixed[j];
    }
    assert Lower(s1)[|before|..|before| + |phrase1|] == phrase1;
    ContainsAt(Lower(s1), phrase1, |before|);
  }

  /** The same holds for a `rustc` panic. */
  lemma PanicWinsOverExitCode(code: int, before: string, after: string)
    ensures ExitStatus(code, before + "thread 'rustc' panicked" + after) == CRASH
  {
    var phrase2 := "thread 'rustc' panicked";
    var s2 := before + phrase2 + after;
    assert forall j :: 0 <= j < |phrase2| ==> LowerChar(phrase2[j]) == phrase2[j];
    forall j | 0 <= j < |phrase2|
      ensures Lower(s2)[|before| + j] == phrase2[j]
    {
      assert s2[|before| + j] == phrase2[j];
    }
    assert Lower(s2)[|before|..|before| + |phrase2|] == phrase2;
    ContainsAt(Lower(s2), phrase2, |before|);
  }
}
