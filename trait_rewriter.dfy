/** The clean-up the trait-rewriting agent applies to the language model's
    reply. The reply is an input; `None` stands for a connector call that
    raised. */
module TraitRewriter {
  import opened Wrappers
  import opened Text

  const RUST_FENCE := "```rust"
  const FENCE := "```"

  /** Drop a leading `prefix` when it is there. */
  function DropPrefix(s: string, prefix: string): (r: string)
    ensures StartsWith(s, prefix) ==> s == prefix + r
    ensures !StartsWith(s, prefix) ==> r == s
  {
    if StartsWith(s, prefix) then s[|prefix|..] else s
  }

  /** Drop a trailing `suffix` when it is there. */
  function DropSuffix(s: string, suffix: string): (r: string)
    ensures EndsWith(s, suffix) ==> s == r + suffix
    ensures !EndsWith(s, suffix) ==> r == s
  {
    if EndsWith(s, suffix) then s[..|s| - |suffix|] else s
  }

  /** The reply clean-up: strip, drop a leading "```rust", then a leading
      "```", then a trailing "```", and strip again. */
  function CleanReply(response: string): string {
    Strip(DropSuffix(DropPrefix(DropPrefix(Strip(response), RUST_FENCE), FENCE), FENCE))
  }

  /** `TraitRewriterAgent.rewrite`: a raising connector gives `None`; any
      reply gives its cleaned form, which never starts or ends with
      whitespace. */
  function Rewrite(response: Option<string>): (r: Option<string>)
    ensures response.None? <==> r.None?
    ensures r.Some? ==> CleanEnds(r.value)
  {
    match response
    case None => None
    case Some(text) =>
      CleanReplyTrimmed(text);
      Some(CleanReply(text))
  }

  /** The cleaned reply never starts or ends with whitespace. */
  lemma CleanReplyTrimmed(response: string)
    ensures CleanEnds(CleanReply(response))
  {
    StripClean(DropSuffix(DropPrefix(DropPrefix(Strip(response), RUST_FENCE), FENCE), FENCE));
  }

  /** Whitespace around a string with clean ends is stripped off. */
  lemma StripAroundClean(code: string, c: char)
    requires IsSpace(c)
    requires CleanEnds(code)
    ensures Strip([c] + code + [c]) == code
  {
    var s := [c] + code + [c];
    assert s[1..] == code + [c];
    var t := code + [c];
    assert TrimStart(s) == TrimStart(t);
    if code == [] {
      assert t[1..] == [];
    } else {
      assert TrimStart(t) == t;
      assert t[..|t| - 1] == code;
      assert TrimEnd(t) == TrimEnd(code);
    }
  }

  /** Code wrapped in a "```rust" fence comes back unchanged. */
  lemma FencedCodeRecovered(code: string)
    requires CleanEnds(code)
    ensures Rewrite(Some(RUST_FENCE + "\n" + code + "\n" + FENCE)) == Some(code)
  {
    var s := RUST_FENCE + "\n" + code + "\n" + FENCE;
    StripFixed(s);
    var c1 := "\n" + code + "\n" + FENCE;
    assert s == RUST_FENCE + c1;
    assert DropPrefix(s, RUST_FENCE) == c1;
    assert !StartsWith(c1, FENCE) by { assert c1[0] == '\n'; }
    assert c1 == ("\n" + code + "\n") + FENCE;
    assert DropSuffix(c1, FENCE) == "\n" + code + "\n";
    assert "\n" + code + "\n" == ['\n'] + code + ['\n'];
    StripAroundClean(code, '\n');
  }

  /** Both leading fences are dropped when the reply starts with
      "```rust```". */
  lemma BothLeadingFencesDropped(code: string)
    requires code != [] && CleanEnds(code)
    requires !EndsWith(code, FENCE)
    ensures Rewrite(Some(RUST_FENCE + FENCE + code)) == Some(code)
  {
    var s := RUST_FENCE + FENCE + code;
    assert s[|s| - 1] == code[|code| - 1];
    StripFixed(s);
    assert s == RUST_FENCE + (FENCE + code);
    assert DropPrefix(s, RUST_FENCE) == FENCE + code;
    assert DropPrefix(FENCE + code, FENCE) == code;
    StripFixed(code);
  }
}
