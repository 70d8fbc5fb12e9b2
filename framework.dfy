/** The collect/mutate pattern every mutator follows: a collector counts the
    mutation sites of a file, and an applier edits the site at a given
    index. `run` draws the index uniformly; the draw is a nondeterministic
    choice here. A collector is a function, so counting cannot change the
    file. */
module Framework {
  import opened Syntax

  /** The file after a `mutate` call and whether the call reported a
      mutation. */
  datatype Outcome = Outcome(file: File, mutated: bool)

  /** `Mutator::run`: with no site the file is returned unchanged and the
      result is false, without calling `mutate`; otherwise `mutate` gets an
      index in `[0, count)` and its result is returned as it is. */
  method Run(file: File, collect: File -> nat, mutate: (File, nat) -> Outcome) returns (r: Outcome)
    ensures collect(file) == 0 ==> r == Outcome(file, false)
    ensures collect(file) > 0 ==> exists index :: 0 <= index < collect(file) && r == mutate(file, index)
  {
    var count := collect(file);
    if count == 0 {
      return Outcome(file, false);
    }
    var index :| 0 <= index < count;
    r := mutate(file, index);
  }
}
