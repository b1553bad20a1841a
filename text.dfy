/**
 * The two JavaScript string primitives the extension leans on:
 * `String.prototype.trim` and `String.prototype.indexOf`.
 * Strings are `seq<char>`, a sequence of Unicode scalar values; JavaScript counts
 * UTF-16 code units, so the two agree on indices only for text without characters
 * outside the Basic Multilingual Plane.
 */
module Text {

  /** The whitespace `trim` strips (ASCII whitespace, the no-break space and the byte-order mark). */
  predicate IsSpace(c: char)
  {
    c == ' ' || c == '\t' || c == '\n' || c == '\r' ||
    c == '\U{000B}' || c == '\U{000C}' || c == '\U{00A0}' || c == '\U{FEFF}'
  }

  predicate AllSpace(s: string)
  {
    forall i :: 0 <= i < |s| ==> IsSpace(s[i])
  }

  /** The first index at or after `i` that is not whitespace, or `|s|`. */
  function SkipSpace(s: string, i: nat): (k: nat)
    requires i <= |s|
    ensures i <= k <= |s| && (k < |s| ==> !IsSpace(s[k]))
    decreases |s| - i
  {
    if i < |s| && IsSpace(s[i]) then SkipSpace(s, i + 1) else i
  }

  /** One past the last non-whitespace index in [lo, j), or `lo`. */
  function SkipSpaceBack(s: string, lo: nat, j: nat): (k: nat)
    requires lo <= j <= |s|
    ensures lo <= k <= j && (k > lo ==> !IsSpace(s[k - 1]))
    decreases j
  {
    if j > lo && IsSpace(s[j - 1]) then SkipSpaceBack(s, lo, j - 1) else j
  }

  /** Where the trimmed text starts in `s`. */
  function TrimLo(s: string): nat
  {
    SkipSpace(s, 0)
  }

  /** Where the trimmed text ends in `s`. */
  function TrimHi(s: string): (hi: nat)
    ensures TrimLo(s) <= hi <= |s|
  {
    SkipSpaceBack(s, TrimLo(s), |s|)
  }

  /** `s.trim()`: `s` without its leading and trailing whitespace. */
  function Trim(s: string): (r: string)
    ensures r == [] || (!IsSpace(r[0]) && !IsSpace(r[|r| - 1]))
  {
    s[TrimLo(s)..TrimHi(s)]
  }

  /** Everything `SkipSpace` passes over is whitespace. */
  lemma {:induction false} SkipSpaceSkipsOnlySpace(s: string, i: nat)
    requires i <= |s|
    ensures forall k :: i <= k < SkipSpace(s, i) ==> IsSpace(s[k])
    decreases |s| - i
  {
    if i < |s| && IsSpace(s[i]) {
      SkipSpaceSkipsOnlySpace(s, i + 1);
    }
  }

  /** Everything `SkipSpaceBack` passes over is whitespace. */
  lemma {:induction false} SkipSpaceBackSkipsOnlySpace(s: string, lo: nat, j: nat)
    requires lo <= j <= |s|
    ensures forall k :: SkipSpaceBack(s, lo, j) <= k < j ==> IsSpace(s[k])
    decreases j
  {
    if j > lo && IsSpace(s[j - 1]) {
      SkipSpaceBackSkipsOnlySpace(s, lo, j - 1);
    }
  }

  /**
   * `trim` removes exactly the surrounding whitespace: `s` is the whitespace it
   * dropped in front, the trimmed text, and the whitespace it dropped behind.
   */
  lemma TrimSplits(s: string)
    ensures s == s[..TrimLo(s)] + Trim(s) + s[TrimHi(s)..]
    ensures AllSpace(s[..TrimLo(s)]) && AllSpace(s[TrimHi(s)..])
  {
    SkipSpaceSkipsOnlySpace(s, 0);
    SkipSpaceBackSkipsOnlySpace(s, TrimLo(s), |s|);
    assert s == s[..TrimLo(s)] + s[TrimLo(s)..TrimHi(s)] + s[TrimHi(s)..];
  }

  /** `trim()` yields the empty string exactly on all-whitespace input. */
  lemma TrimEmptyIff(s: string)
    ensures Trim(s) == [] <==> AllSpace(s)
  {
    TrimSplits(s);
  }

  /** Trimming twice is trimming once. */
  lemma TrimIdempotent(s: string)
    ensures Trim(Trim(s)) == Trim(s)
  {
    var r := Trim(s);
    if r != [] {
      assert SkipSpace(r, 0) == 0;
      assert SkipSpaceBack(r, 0, |r|) == |r|;
      assert r[0..|r|] == r;
    }
  }

  /** `pattern` occurs in `text` starting at index `k`. */
  predicate MatchesAt(text: string, pattern: string, k: int)
  {
    0 <= k && k + |pattern| <= |text| && text[k..k + |pattern|] == pattern
  }

  /** `text.indexOf(pattern, from)` for `from <= |text|`: first match at or after `from`, else -1. */
  function IndexOfFrom(text: string, pattern: string, from: nat): (r: int)
    requires from <= |text|
    ensures r == -1 || (from <= r && MatchesAt(text, pattern, r))
    ensures r == -1 ==> forall k :: from <= k ==> !MatchesAt(text, pattern, k)
    ensures r != -1 ==> forall k :: from <= k < r ==> !MatchesAt(text, pattern, k)
    decreases |text| - from
  {
    if from + |pattern| > |text| then -1
    else if text[from..from + |pattern|] == pattern then from
    else IndexOfFrom(text, pattern, from + 1)
  }

  /** `text.indexOf(pattern)`: the first match, or -1 when there is none. */
  function IndexOf(text: string, pattern: string): (r: int)
    ensures r == -1 <==> forall k :: !MatchesAt(text, pattern, k)
    ensures r != -1 ==> MatchesAt(text, pattern, r) && forall k :: 0 <= k < r ==> !MatchesAt(text, pattern, k)
  {
    IndexOfFrom(text, pattern, 0)
  }

  /** Any index that matches and has no earlier match is what `IndexOfFrom` finds. */
  lemma {:induction false} IndexOfFromIsFirst(text: string, pattern: string, from: nat, r: nat)
    requires from <= r && MatchesAt(text, pattern, r)
    requires forall k :: from <= k < r ==> !MatchesAt(text, pattern, k)
    ensures IndexOfFrom(text, pattern, from) == r
    decreases r - from
  {
    if from < r {
      IndexOfFromIsFirst(text, pattern, from + 1, r);
    }
  }

  /** The first occurrence wins: text after it never moves the answer. */
  lemma IndexOfIgnoresSuffix(text: string, pattern: string, tail: string)
    requires IndexOf(text, pattern) != -1
    ensures IndexOf(text + tail, pattern) == IndexOf(text, pattern)
  {
    var r := IndexOf(text, pattern);
    var t := text + tail;
    assert t[r..r + |pattern|] == text[r..r + |pattern|];
    forall k | 0 <= k < r ensures !MatchesAt(t, pattern, k) {
      assert !MatchesAt(text, pattern, k);
      assert t[k..k + |pattern|] == text[k..k + |pattern|];
    }
    IndexOfFromIsFirst(t, pattern, 0, r);
  }
}
