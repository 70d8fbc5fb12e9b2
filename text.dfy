/** Character and string helpers shared by the driver and tool models:
    Python-style whitespace, `strip`, substring tests, ASCII lower-casing and
    decimal digit strings (`str(n)` / `int(s)`). */
module Text {
  import opened Wrappers

  /** Python's `str.isspace` for a single character. */
  predicate IsSpace(c: char) {
    c == ' ' || c == '\t' || c == '\n' || c == '\r' || c == '\U{0B}' || c == '\U{0C}'
    || ('\U{1C}' <= c <= '\U{1F}') || c == '\U{85}' || c == '\U{A0}' || c == '\U{1680}'
    || ('\U{2000}' <= c <= '\U{200A}') || c == '\U{2028}' || c == '\U{2029}'
    || c == '\U{202F}' || c == '\U{205F}' || c == '\U{3000}'
  }

  predicate StartsWith(s: string, p: string) {
    |p| <= |s| && s[..|p|] == p
  }

  predicate EndsWith(s: string, p: string) {
    |p| <= |s| && s[|s| - |p|..] == p
  }

  /** Python's `sub in s`. */
  predicate Contains(s: string, sub: string)
    decreases |s|
  {
    StartsWith(s, sub) || (|s| > 0 && Contains(s[1..], sub))
  }

  lemma {:induction false} ContainsAt(s: string, sub: string, i: nat)
    requires i + |sub| <= |s| && s[i..i + |sub|] == sub
    ensures Contains(s, sub)
    decreases i
  {
    if i > 0 {
      assert s[1..][i - 1..i - 1 + |sub|] == sub;
      ContainsAt(s[1..], sub, i - 1);
    }
  }

  lemma {:induction false} ContainsAppend(a: string, b: string, sub: string)
    ensures Contains(a, sub) ==> Contains(a + b, sub)
    ensures Contains(b, sub) ==> Contains(a + b, sub)
    decreases |a|
  {
    if Contains(a, sub) {
      if StartsWith(a, sub) {
        assert (a + b)[..|sub|] == a[..|sub|];
      } else {
        assert (a + b)[1..] == a[1..] + b;
        ContainsAppend(a[1..], b, sub);
      }
    }
    if Contains(b, sub) {
      if a == [] {
        assert a + b == b;
      } else {
        assert (a + b)[1..] == a[1..] + b;
        ContainsAppend(a[1..], b, sub);
      }
    }
  }

  /** `sep` occurs in `s` at index `j`. */
  predicate OccursAt(s: string, sep: string, j: int) {
    0 <= j && j + |sep| <= |s| && s[j..j + |sep|] == sep
  }

  /** `s.split(sep, 1)[1]` when `sep` occurs in `s`. */
  function AfterFirst(s: string, sep: string): (r: Option<string>)
    requires |sep| > 0
    ensures r.None? <==> !Contains(s, sep)
    ensures r.Some? ==> |r.value| + |sep| <= |s|
    decreases |s|
  {
    if StartsWith(s, sep) then Some(s[|sep|..])
    else if s == [] then None
    else AfterFirst(s[1..], sep)
  }

  /** What `AfterFirst` returns is the rest of `s` after an occurrence of
      `sep`. */
  lemma {:induction false} AfterFirstIsSuffix(s: string, sep: string)
    requires |sep| > 0 && AfterFirst(s, sep).Some?
    ensures var r := AfterFirst(s, sep).value;
      |r| + |sep| <= |s| && OccursAt(s, sep, |s| - |r| - |sep|) && r == s[|s| - |r|..]
    decreases |s|
  {
    if !StartsWith(s, sep) {
      AfterFirstIsSuffix(s[1..], sep);
      var r := AfterFirst(s, sep).value;
      assert s[1..][|s| - 1 - |r| - |sep|..|s| - 1 - |r|] == s[|s| - |r| - |sep|..|s| - |r|];
    }
  }

  /** The occurrence `AfterFirst` splits at is the first one. */
  lemma {:induction false} AfterFirstIsFirst(s: string, sep: string)
    requires |sep| > 0 && AfterFirst(s, sep).Some?
    ensures var k := |s| - |AfterFirst(s, sep).value| - |sep|;
      forall j :: 0 <= j < k ==> !OccursAt(s, sep, j)
    decreases |s|
  {
    if !StartsWith(s, sep) {
      AfterFirstIsFirst(s[1..], sep);
      var k := |s| - |AfterFirst(s, sep).value| - |sep|;
      forall j | 0 < j < k
        ensures !OccursAt(s, sep, j)
      {
        OccursAtTail(s, sep, j);
      }
    }
  }

  lemma OccursAtTail(s: string, sep: string, j: int)
    requires 0 < j
    ensures OccursAt(s, sep, j) ==> OccursAt(s[1..], sep, j - 1)
  {
    if j + |sep| <= |s| {
      assert s[1..][j - 1..j - 1 + |sep|] == s[j..j + |sep|];
    }
  }

  /** The text of `s` before the first occurrence of `sep`, or all of `s`
      when there is none: `s.split(sep)[0]`. */
  function BeforeFirst(s: string, sep: string): (r: string)
    requires |sep| > 0
    ensures |r| <= |s| && r == s[..|r|]
    ensures |r| == |s| || OccursAt(s, sep, |r|)
    decreases |s|
  {
    if StartsWith(s, sep) || s == [] then []
    else [s[0]] + BeforeFirst(s[1..], sep)
  }

  /** No occurrence of `sep` starts inside what `BeforeFirst` returns. */
  lemma {:induction false} BeforeFirstIsFirst(s: string, sep: string)
    requires |sep| > 0
    ensures forall j :: 0 <= j < |BeforeFirst(s, sep)| ==> !OccursAt(s, sep, j)
    decreases |s|
  {
    if !StartsWith(s, sep) && s != [] {
      BeforeFirstIsFirst(s[1..], sep);
      forall j | 0 < j < |BeforeFirst(s, sep)|
        ensures !OccursAt(s, sep, j)
      {
        OccursAtTail(s, sep, j);
      }
    }
  }

  /** `s.split(sep)[1]`: the text after the first occurrence of `sep`, up
      to the second occurrence or the end. */
  function SplitSecond(s: string, sep: string): string
    requires |sep| > 0 && Contains(s, sep)
  {
    BeforeFirst(AfterFirst(s, sep).value, sep)
  }

  /** Where `SplitSecond` starts: right after the first occurrence of
      `sep`. */
  lemma SecondPieceStart(s: string, sep: string)
    requires |sep| > 0 && Contains(s, sep)
    ensures var k := |s| - |AfterFirst(s, sep).value|;
      |sep| <= k && OccursAt(s, sep, k - |sep|) && forall j :: 0 <= j < k - |sep| ==> !OccursAt(s, sep, j)
  {
    AfterFirstIsSuffix(s, sep);
    AfterFirstIsFirst(s, sep);
  }

  /** Where `SplitSecond` ends: at the next occurrence of `sep` or at the
      end of `s`. */
  lemma SecondPieceEnd(s: string, sep: string)
    requires |sep| > 0 && Contains(s, sep)
    ensures var k := |s| - |AfterFirst(s, sep).value|; var r := SplitSecond(s, sep);
      && k + |r| <= |s| && r == s[k..k + |r|]
      && (k + |r| == |s| || OccursAt(s, sep, k + |r|))
  {
    AfterFirstIsSuffix(s, sep);
    var rest := AfterFirst(s, sep).value;
    var k := |s| - |rest|;
    var r := BeforeFirst(rest, sep);
    assert r == SplitSecond(s, sep);
    SliceOfSuffix(s, rest, r, sep, k);
  }

  /** A prefix `r` of the suffix `s[k..]` is the slice of `s` at `k`, and an
      occurrence right after it in the suffix is one in `s`. */
  lemma SliceOfSuffix(s: string, rest: string, r: string, sep: string, k: nat)
    requires k <= |s| && rest == s[k..] && |r| <= |rest| && r == rest[..|r|]
    requires |r| == |rest| || OccursAt(rest, sep, |r|)
    ensures k + |r| <= |s| && r == s[k..k + |r|]
    ensures k + |r| == |s| || OccursAt(s, sep, k + |r|)
  {
    if |r| < |rest| {
      assert s[k + |r|..k + |r| + |sep|] == rest[|r|..|r| + |sep|];
    }
  }

  /** Python's `str.lstrip()` with no argument. */
  function TrimStart(s: string): (r: string)
    ensures |r| <= |s| && r == s[|s| - |r|..]
    ensures r == [] || !IsSpace(r[0])
    ensures forall i :: 0 <= i < |s| - |r| ==> IsSpace(s[i])
    decreases |s|
  {
    if |s| > 0 && IsSpace(s[0]) then TrimStart(s[1..]) else s
  }

  /** Python's `str.rstrip()` with no argument. */
  function TrimEnd(s: string): (r: string)
    ensures |r| <= |s| && r == s[..|r|]
    ensures r == [] || !IsSpace(r[|r| - 1])
    ensures forall i :: |r| <= i < |s| ==> IsSpace(s[i])
    decreases |s|
  {
    if |s| > 0 && IsSpace(s[|s| - 1]) then TrimEnd(s[..|s| - 1]) else s
  }

  /** Neither the first nor the last character is whitespace. */
  predicate CleanEnds(s: string) {
    s == [] || (!IsSpace(s[0]) && !IsSpace(s[|s| - 1]))
  }

  /** Python's `str.strip()` with no argument. */
  function Strip(s: string): string {
    TrimEnd(TrimStart(s))
  }

  /** `strip()` leaves neither leading nor trailing whitespace. */
  lemma StripClean(s: string)
    ensures CleanEnds(Strip(s))
  {
    var t := TrimStart(s);
    var r := TrimEnd(t);
    if r != [] {
      assert r[0] == t[0];
    }
  }

  /** What `strip()` drops is whitespace at the two ends: the result is the
      slice `s[k..k + |r|]` with only whitespace outside it. */
  lemma StripDropsOnlySpace(s: string)
    ensures var r := Strip(s);
      var k := |s| - |TrimStart(s)|;
      && k + |r| <= |s| && r == s[k..k + |r|]
      && (forall i :: 0 <= i < k ==> IsSpace(s[i]))
      && (forall i :: k + |r| <= i < |s| ==> IsSpace(s[i]))
  {
    var t := TrimStart(s);
    var r := TrimEnd(t);
    var k := |s| - |t|;
    assert t == s[k..];
    assert r == t[..|r|];
    InnerSlice(s, t, r, k);
    assert Strip(s) == r;
  }

  /** A prefix `r` of the suffix `t == s[k..]`, followed in `t` by
      whitespace only, is the slice of `s` at `k` followed by whitespace
      only. */
  lemma InnerSlice(s: string, t: string, r: string, k: nat)
    requires k <= |s| && t == s[k..] && |r| <= |t| && r == t[..|r|]
    requires forall i :: |r| <= i < |t| ==> IsSpace(t[i])
    ensures k + |r| <= |s| && r == s[k..k + |r|]
    ensures forall i :: k + |r| <= i < |s| ==> IsSpace(s[i])
  {
    forall i | k + |r| <= i < |s|
      ensures IsSpace(s[i])
    {
      assert s[i] == t[i - k];
    }
  }

  /** A string with no whitespace at either end is its own `strip()`. */
  lemma StripFixed(s: string)
    requires CleanEnds(s)
    ensures Strip(s) == s
  {
  }

  /** Python's `"".join(s.split())`: every whitespace character removed. */
  function RemoveSpaces(s: string): (r: string)
    ensures forall i :: 0 <= i < |r| ==> !IsSpace(r[i])
    ensures |r| <= |s|
  {
    if s == [] then []
    else if IsSpace(s[0]) then RemoveSpaces(s[1..])
    else [s[0]] + RemoveSpaces(s[1..])
  }

  lemma {:induction false} RemoveSpacesAppend(a: string, b: string)
    ensures RemoveSpaces(a + b) == RemoveSpaces(a) + RemoveSpaces(b)
    decreases |a|
  {
    if a != [] {
      assert (a + b)[1..] == a[1..] + b;
      RemoveSpacesAppend(a[1..], b);
    } else {
      assert a + b == b;
    }
  }

  /** Inserting a whitespace character anywhere does not change the
      whitespace-free form. */
  lemma RemoveSpacesIgnoresSpace(a: string, c: char, b: string)
    requires IsSpace(c)
    ensures RemoveSpaces(a + [c] + b) == RemoveSpaces(a + b)
  {
    RemoveSpacesAppend(a + [c], b);
    RemoveSpacesAppend(a, [c]);
    RemoveSpacesAppend(a, b);
    assert RemoveSpaces([c]) == RemoveSpaces([]);
  }

  function LowerChar(c: char): char {
    if 'A' <= c <= 'Z' then (c as int - 'A' as int + 'a' as int) as char else c
  }

  /** Python's `str.lower()` restricted to ASCII letters. */
  function Lower(s: string): (r: string)
    ensures |r| == |s|
    ensures forall i :: 0 <= i < |s| ==> r[i] == LowerChar(s[i])
  {
    if s == [] then [] else [LowerChar(s[0])] + Lower(s[1..])
  }

  predicate IsDigit(c: char) {
    '0' <= c <= '9'
  }

  /** Python's `str.isdigit()` (ASCII digits only): false for the empty string. */
  predicate IsDigits(s: string) {
    |s| > 0 && forall i :: 0 <= i < |s| ==> IsDigit(s[i])
  }

  predicate AllDigits(s: string) {
    forall i :: 0 <= i < |s| ==> IsDigit(s[i])
  }

  /** Python's `int(s)` for a string of decimal digits. */
  function DigitsValue(s: string): nat
    requires AllDigits(s)
    decreases |s|
  {
    if s == [] then 0
    else DigitsValue(s[..|s| - 1]) * 10 + (s[|s| - 1] as int - '0' as int)
  }

  function DigitChar(d: nat): (c: char)
    requires d < 10
    ensures IsDigit(c)
  {
    ('0' as int + d) as char
  }

  /** Python's `str(n)` for a natural number. */
  function NatToDigits(n: nat): (r: string)
    ensures IsDigits(r)
    ensures |r| > 1 ==> r[0] != '0'
    decreases n
  {
    if n < 10 then [DigitChar(n)] else NatToDigits(n / 10) + [DigitChar(n % 10)]
  }

  /** `int(str(n)) == n`. */
  lemma {:induction false} DigitsRoundTrip(n: nat)
    ensures DigitsValue(NatToDigits(n)) == n
    decreases n
  {
    if n >= 10 {
      var s := NatToDigits(n);
      assert s[..|s| - 1] == NatToDigits(n / 10);
      DigitsRoundTrip(n / 10);
    }
  }
}
