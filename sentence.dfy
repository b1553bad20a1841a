/**
 * The sentence extractor of `utils/sentence.js`: given the current text selection,
 * find the nearest ancestor element that is not displayed inline, locate the first
 * occurrence of the selected text in that element's text, and widen it to the
 * enclosing sentence, using `.`, `?` and `!` as terminators.
 *
 * The DOM is abstracted away: a selection is given by its `rangeCount`, its text,
 * the chain of elements from the selection's common ancestor upwards (each with its
 * computed `display` reduced to "starts with inline" and its `textContent`), and an
 * opaque anchor node.
 */
module Sentence {
  import opened Wrappers
  import opened Text

  type NodeId = nat

  /** An element on the `parentElement` chain. */
  datatype Element = Element(isInline: bool, textContent: string)

  /** A `window.getSelection()` result, with the facts the extractor reads as values. */
  datatype Selection = Selection(
    rangeCount: nat,
    text: string,            // sel.toString()
    ancestors: seq<Element>, // from the common ancestor's element outwards; [] when it has none
    anchorNode: NodeId)

  /** The `{ fullSentence, anchorNode }` record `extendToSentence` returns. */
  datatype Extracted = Extracted(fullSentence: string, anchorNode: Option<NodeId>)

  predicate IsTerminator(c: char)
  {
    c == '.' || c == '?' || c == '!'
  }

  /** A terminator at `i >= 1` followed by a space: the backward scan stops here. */
  predicate IsBoundary(text: string, i: int)
  {
    1 <= i && i + 1 < |text| && IsTerminator(text[i]) && text[i + 1] == ' '
  }

  // ---------------------------------------------------------------------------
  // Specification of the two scans

  /**
   * Where the sentence around index `selIndex` starts: two past the last boundary
   * at an index in [1, selIndex], or 0 when there is none (index 0 is never a boundary).
   */
  function SentenceStart(text: string, selIndex: nat): (start: nat)
    ensures start != 0 ==> 3 <= start <= selIndex + 2 && IsBoundary(text, start - 2)
  {
    if selIndex == 0 then 0
    else if IsBoundary(text, selIndex) then selIndex + 2
    else SentenceStart(text, selIndex - 1)
  }

  /**
   * Where the sentence that continues at `from` ends: one past the first terminator
   * at an index >= `from` (no space needed), or the end of the text.
   */
  function SentenceEnd(text: string, from: nat): (end: nat)
    requires from <= |text|
    ensures from <= end <= |text|
    ensures from < |text| ==> from < end && (end < |text| ==> IsTerminator(text[end - 1]))
    decreases |text| - from
  {
    if from == |text| then |text|
    else if IsTerminator(text[from]) then from + 1
    else SentenceEnd(text, from + 1)
  }

  /**
   * The start scan finds the LAST boundary: there is none between it and
   * `selIndex`, and when it gives 0 there is none in [1, selIndex] at all.
   */
  lemma {:induction false} SentenceStartIsLast(text: string, selIndex: nat)
    ensures SentenceStart(text, selIndex) == 0 <==> forall k :: 1 <= k <= selIndex ==> !IsBoundary(text, k)
    ensures forall k :: SentenceStart(text, selIndex) - 2 < k <= selIndex ==> !IsBoundary(text, k)
  {
    if selIndex > 0 && !IsBoundary(text, selIndex) {
      SentenceStartIsLast(text, selIndex - 1);
    }
  }

  /** The end scan finds the FIRST terminator at or after `from`. */
  lemma {:induction false} SentenceEndIsFirst(text: string, from: nat)
    requires from <= |text|
    ensures forall k :: from <= k < SentenceEnd(text, from) - 1 ==> !IsTerminator(text[k])
    ensures SentenceEnd(text, from) == |text| ==> forall k :: from <= k < |text| - 1 ==> !IsTerminator(text[k])
    decreases |text| - from
  {
    if from < |text| && !IsTerminator(text[from]) {
      SentenceEndIsFirst(text, from + 1);
    }
  }

  /**
   * Where the selection is found, the two scans never cross, so the JavaScript
   * `substring(start, end)` never has to swap its arguments. (An empty selection
   * is found at 0, where the start scan gives 0.)
   */
  lemma SentenceBounds(text: string, selText: string, selIndex: nat)
    requires MatchesAt(text, selText, selIndex) && (selText == [] ==> selIndex == 0)
    ensures 0 <= SentenceStart(text, selIndex) <= SentenceEnd(text, selIndex + |selText|) <= |text|
  {
    var start := SentenceStart(text, selIndex);
    var from := selIndex + |selText|;
    var end := SentenceEnd(text, from);
    if start > from {
      // Only a one-character selection that is itself the boundary's terminator
      // gets here; the space after it is not a terminator, so the end scan moves on.
      assert |selText| == 1 && start == selIndex + 2;
      assert from < |text| && text[from] == ' ';
      assert from < end;
    }
  }

  /**
   * The trimmed sentence around the selection found at `selIndex`, or the
   * selection itself when that sentence trims to nothing.
   */
  function SentenceAt(allText: string, selText: string, selIndex: nat): (r: string)
    requires MatchesAt(allText, selText, selIndex) && (selText == [] ==> selIndex == 0)
    ensures selText != [] ==> r != []
  {
    SentenceBounds(allText, selText, selIndex);
    SentenceBetween(allText, SentenceStart(allText, selIndex), SentenceEnd(allText, selIndex + |selText|), selText)
  }

  /** `allText.substring(start, end).trim()`, or `fallback` when that is empty. */
  function SentenceBetween(allText: string, start: nat, end: nat, fallback: string): (r: string)
    requires start <= end <= |allText|
    ensures fallback != [] ==> r != []
  {
    var fullSentence := Trim(allText[start..end]);
    if fullSentence != [] then fullSentence else fallback
  }

  /**
   * Lines 27-55 of `extendToSentence`: the sentence around the first occurrence of
   * the (already trimmed) selection in `allText`, trimmed; the selection itself when
   * it does not occur or the sentence trims to nothing.
   */
  function SentenceOf(allText: string, selText: string): (r: string)
    ensures IndexOf(allText, selText) == -1 ==> r == selText
    ensures selText != [] ==> r != []
  {
    var selIndex := IndexOf(allText, selText);
    if selIndex == -1 then selText
    else
      assert selText == [] ==> MatchesAt(allText, selText, 0);
      SentenceAt(allText, selText, selIndex)
  }

  /** When the selection occurs, `SentenceOf` is the sentence at its first occurrence. */
  lemma SentenceOfFound(allText: string, selText: string)
    requires IndexOf(allText, selText) != -1
    ensures var i := IndexOf(allText, selText);
      && i >= 0 && MatchesAt(allText, selText, i) && (selText == [] ==> i == 0)
      && SentenceOf(allText, selText) == SentenceAt(allText, selText, i)
  {
    assert selText == [] ==> MatchesAt(allText, selText, 0);
  }

  /** The first ancestor on the chain that is not displayed inline. */
  function BlockAncestor(chain: seq<Element>): (r: Option<nat>)
    ensures r == None <==> forall j :: 0 <= j < |chain| ==> chain[j].isInline
    ensures r.Some? ==> r.value < |chain| && !chain[r.value].isInline
    ensures r.Some? ==> forall j :: 0 <= j < r.value ==> chain[j].isInline
  {
    if chain == [] then None
    else if !chain[0].isInline then Some(0)
    else match BlockAncestor(chain[1..])
      case None => None
      case Some(k) => Some(k + 1)
  }

  /** `extendToSentence(sel)` as a function of the abstracted selection. */
  function Extract(sel: Option<Selection>): (r: Extracted)
    ensures sel.None? || sel.value.rangeCount == 0 ==> r == Extracted("", None)
    ensures sel.Some? && sel.value.rangeCount > 0 ==> r.anchorNode == Some(sel.value.anchorNode)
  {
    match sel
    case None => Extracted("", None)
    case Some(s) =>
      if s.rangeCount == 0 then Extracted("", None)
      else
        var selText := Trim(s.text);
        var block := BlockAncestor(s.ancestors);
        if block.None? || s.ancestors[block.value].textContent == [] then
          Extracted(selText, Some(s.anchorNode))
        else
          Extracted(SentenceOf(s.ancestors[block.value].textContent, selText), Some(s.anchorNode))
  }

  // ---------------------------------------------------------------------------
  // The imperative extractor, as the source runs it

  /** The `while` loop that climbs `parentElement` past inline elements. */
  method FindBlockAncestor(chain: seq<Element>) returns (found: Option<nat>)
    ensures found == BlockAncestor(chain)
  {
    var k := 0;
    while k < |chain| && chain[k].isInline
      invariant 0 <= k <= |chain|
      invariant forall j :: 0 <= j < k ==> chain[j].isInline
    {
      k := k + 1;
    }
    found := if k < |chain| then Some(k) else None;
    BlockAncestorIsFirst(chain, found);
  }

  /** The first non-inline element is unique, so any index that is one is `BlockAncestor`'s. */
  lemma BlockAncestorIsFirst(chain: seq<Element>, found: Option<nat>)
    requires found == None ==> forall j :: 0 <= j < |chain| ==> chain[j].isInline
    requires found.Some? ==> found.value < |chain| && !chain[found.value].isInline
    requires found.Some? ==> forall j :: 0 <= j < found.value ==> chain[j].isInline
    ensures found == BlockAncestor(chain)
  {
  }

  /** The backward `for` loop: from `selIndex` down to 1, stop at the first boundary. */
  method FindSentenceStart(text: string, selIndex: nat) returns (start: nat)
    ensures start == SentenceStart(text, selIndex)
  {
    start := 0;
    var i := selIndex;
    while i > 0
      invariant 0 <= i <= selIndex
      invariant SentenceStart(text, i) == SentenceStart(text, selIndex)
    {
      if i + 1 < |text| && IsTerminator(text[i]) && text[i + 1] == ' ' {
        start := i + 2;
        return;
      }
      i := i - 1;
    }
  }

  /** The forward `for` loop: from `from` up, stop just past the first terminator. */
  method FindSentenceEnd(text: string, from: nat) returns (end: nat)
    requires from <= |text|
    ensures end == SentenceEnd(text, from)
  {
    end := |text|;
    var i := from;
    while i < |text|
      invariant from <= i <= |text|
      invariant SentenceEnd(text, i) == SentenceEnd(text, from)
    {
      if IsTerminator(text[i]) {
        end := i + 1;
        return;
      }
      i := i + 1;
    }
  }

  /** `utils/sentence.js` lines 35-55: from the selection's index, run both scans, trim, fall back. */
  method SentenceAtIndex(allText: string, selectionText: string, selIndex: nat) returns (fullSentence: string)
    requires MatchesAt(allText, selectionText, selIndex) && (selectionText == [] ==> selIndex == 0)
    ensures fullSentence == SentenceAt(allText, selectionText, selIndex)
  {
    var startIndex := FindSentenceStart(allText, selIndex);
    var endIndex := FindSentenceEnd(allText, selIndex + |selectionText|);
    SentenceAtUnfold(allText, selectionText, selIndex);
    fullSentence := Trim(allText[startIndex..endIndex]);
    if fullSentence == [] {
      fullSentence := selectionText;
    }
  }

  /** `utils/sentence.js` lines 27-55: locate the selection, then widen it to its sentence. */
  method SentenceAround(allText: string, selectionText: string) returns (fullSentence: string)
    ensures fullSentence == SentenceOf(allText, selectionText)
  {
    var selIndex := IndexOf(allText, selectionText);
    if selIndex == -1 {
      return selectionText;
    }
    SentenceOfFound(allText, selectionText);
    fullSentence := SentenceAtIndex(allText, selectionText, selIndex);
  }

  /** `extendToSentence(sel)`. */
  method ExtendToSentence(sel: Option<Selection>) returns (r: Extracted)
    ensures r == Extract(sel)
  {
    if sel.None? || sel.value.rangeCount == 0 {
      return Extracted("", None);
    }
    var s := sel.value;
    var selectionText := Trim(s.text);
    var block := FindBlockAncestor(s.ancestors);
    if block.None? || s.ancestors[block.value].textContent == [] {
      return Extracted(selectionText, Some(s.anchorNode));
    }
    var fullSentence := SentenceAround(s.ancestors[block.value].textContent, selectionText);
    r := Extracted(fullSentence, Some(s.anchorNode));
  }

  // ---------------------------------------------------------------------------
  // Properties

  /** Without a block ancestor that has text, the answer is the trimmed selection. */
  lemma FallbackWithoutBlockText(s: Selection)
    requires s.rangeCount > 0
    requires BlockAncestor(s.ancestors).None? ||
             s.ancestors[BlockAncestor(s.ancestors).value].textContent == []
    ensures Extract(Some(s)) == Extracted(Trim(s.text), Some(s.anchorNode))
  {
  }

  /** A non-blank selection always yields a non-blank sentence. */
  lemma ExtractNonEmpty(s: Selection)
    requires s.rangeCount > 0 && Trim(s.text) != []
    ensures Extract(Some(s)).fullSentence != []
  {
  }

  /**
   * The found sentence is the trimmed piece of the block's text between the two
   * scanned boundaries, and that piece runs at least to the end of the
   * selection's first occurrence.
   */
  lemma SentenceIsInfix(allText: string, selText: string)
    requires IndexOf(allText, selText) != -1
    requires SentenceOf(allText, selText) != selText
    ensures var i := IndexOf(allText, selText);
      var start := SentenceStart(allText, i);
      var end := SentenceEnd(allText, i + |selText|);
      && start <= end <= |allText| && i + |selText| <= end
      && SentenceOf(allText, selText) == Trim(allText[start..end])
  {
    SentenceOfFound(allText, selText);
    SentenceAtUnfold(allText, selText, IndexOf(allText, selText));
  }

  /** The end scan only looks as far as the first terminator after `from`. */
  lemma {:induction false} SentenceEndIgnoresSuffix(a: string, b: string, from: nat, t: nat)
    requires from <= t < |a| && IsTerminator(a[t])
    ensures SentenceEnd(a + b, from) == SentenceEnd(a, from) <= t + 1
    decreases t - from
  {
    assert (a + b)[from] == a[from];
    if !IsTerminator(a[from]) {
      SentenceEndIgnoresSuffix(a, b, from + 1, t);
    }
  }

  /** The start scan only looks at indices up to `i + 1`. */
  lemma {:induction false} SentenceStartIgnoresSuffix(a: string, b: string, i: nat)
    requires i + 1 < |a| || i == 0
    ensures SentenceStart(a + b, i) == SentenceStart(a, i)
  {
    if i > 0 {
      assert (a + b)[i] == a[i] && (a + b)[i + 1] == a[i + 1];
      assert IsBoundary(a + b, i) == IsBoundary(a, i);
      SentenceStartIgnoresSuffix(a, b, i - 1);
    }
  }

  /** Text after the terminator that closes the sentence does not change it. */
  lemma SentenceAtIgnoresSuffix(a: string, b: string, selText: string, i: nat, t: nat)
    requires MatchesAt(a, selText, i) && (selText == [] ==> i == 0)
    requires i + |selText| <= t < |a| && IsTerminator(a[t])
    ensures MatchesAt(a + b, selText, i)
    ensures SentenceAt(a + b, selText, i) == SentenceAt(a, selText, i)
  {
    var ab := a + b;
    assert ab[i..i + |selText|] == a[i..i + |selText|];
    ScansIgnoreSuffix(a, b, selText, i, t);
    SentenceBounds(a, selText, i);
    var start := SentenceStart(a, i);
    var end := SentenceEnd(a, i + |selText|);
    assert ab[start..end] == a[start..end];
    SentenceAtUnfold(ab, selText, i);
    SentenceAtUnfold(a, selText, i);
    SentenceBetweenSameSlice(ab, a, start, end, selText);
  }

  lemma ScansIgnoreSuffix(a: string, b: string, selText: string, i: nat, t: nat)
    requires i + |selText| <= t < |a| && IsTerminator(a[t]) && (selText == [] ==> i == 0)
    ensures SentenceStart(a + b, i) == SentenceStart(a, i)
    ensures SentenceEnd(a + b, i + |selText|) == SentenceEnd(a, i + |selText|)
  {
    SentenceStartIgnoresSuffix(a, b, i);
    SentenceEndIgnoresSuffix(a, b, i + |selText|, t);
  }

  /** `SentenceAt` is the sentence between the two scans. */
  lemma SentenceAtUnfold(text: string, selText: string, i: nat)
    requires MatchesAt(text, selText, i) && (selText == [] ==> i == 0)
    ensures SentenceStart(text, i) <= SentenceEnd(text, i + |selText|) <= |text|
    ensures SentenceAt(text, selText, i)
         == SentenceBetween(text, SentenceStart(text, i), SentenceEnd(text, i + |selText|), selText)
  {
    SentenceBounds(text, selText, i);
  }

  /** The sentence depends only on the text between its bounds. */
  lemma SentenceBetweenSameSlice(x: string, y: string, start: nat, end: nat, fallback: string)
    requires start <= end <= |x| && end <= |y| && x[start..end] == y[start..end]
    ensures SentenceBetween(x, start, end, fallback) == SentenceBetween(y, start, end, fallback)
  {
  }

  /**
   * Only the first occurrence matters: once the sentence around it is closed by a
   * terminator, appending text (with further occurrences) changes nothing.
   */
  lemma SentenceOfIgnoresLaterText(a: string, b: string, selText: string, t: nat)
    requires IndexOf(a, selText) != -1
    requires IndexOf(a, selText) + |selText| <= t < |a| && IsTerminator(a[t])
    ensures SentenceOf(a + b, selText) == SentenceOf(a, selText)
  {
    var i := IndexOf(a, selText);
    IndexOfIgnoresSuffix(a, selText, b);
    assert selText == [] ==> MatchesAt(a, selText, 0);
    SentenceAtIgnoresSuffix(a, b, selText, i, t);
  }

  /** `"A. B! C?"` with `"B"` selected gives `"B!"`. */
  lemma ExampleShortSentences(text: string)
    requires text == "A. B! C?"
    ensures SentenceOf(text, "B") == "B!"
  {
    ShortSentenceIndex(text);
    ShortSentenceScans(text);
    SentenceAtUnfold(text, "B", 3);
    assert text[3..5] == "B!";
    TrimmedExample("B!");
  }

  lemma ShortSentenceIndex(text: string)
    requires text == "A. B! C?"
    ensures IndexOf(text, "B") == 3
  {
    forall k | 0 <= k < 3 ensures !MatchesAt(text, "B", k) {
      assert text[k..k + 1][0] == text[k];
    }
    assert text[3..4] == "B";
    IndexOfFromIsFirst(text, "B", 0, 3);
  }

  lemma ShortSentenceScans(text: string)
    requires text == "A. B! C?"
    ensures SentenceStart(text, 3) == 3 && SentenceEnd(text, 4) == 5
  {
    assert IsBoundary(text, 1) && !IsBoundary(text, 2) && !IsBoundary(text, 3);
    SentenceStartIsLastBoundary(text, 3, 1);
    SentenceEndIsFirstTerminator(text, 4, 4);
  }

  /** A string with no whitespace at either end is its own trim. */
  lemma TrimmedExample(s: string)
    requires s != [] && !IsSpace(s[0]) && !IsSpace(s[|s| - 1])
    ensures Trim(s) == s
  {
    assert SkipSpace(s, 0) == 0;
    assert SkipSpaceBack(s, 0, |s|) == |s|;
    assert s[0..|s|] == s;
  }

  /** `"Hello world. Foo bar baz. Another one."` with `"bar"` gives `"Foo bar baz."`. */
  lemma ExampleMiddleSentence(text: string)
    requires text == "Hello world. Foo bar baz. Another one."
    ensures SentenceOf(text, "bar") == "Foo bar baz."
  {
    MiddleSentenceIndex(text);
    MiddleSentenceScans(text);
    SentenceAtUnfold(text, "bar", 17);
    MiddleSentenceSlice(text);
    TrimmedExample("Foo bar baz.");
  }

  lemma MiddleSentenceSlice(text: string)
    requires text == "Hello world. Foo bar baz. Another one."
    ensures text[13..25] == "Foo bar baz."
  {
    var want := "Foo bar baz.";
    assert forall k :: 0 <= k < 12 ==> text[13 + k] == want[k];
  }

  lemma MiddleSentenceIndex(text: string)
    requires text == "Hello world. Foo bar baz. Another one."
    ensures IndexOf(text, "bar") == 17
  {
    assert forall k :: 0 <= k < 17 ==> text[k] != 'b';
    forall k | 0 <= k < 17 ensures !MatchesAt(text, "bar", k) {
      assert text[k..k + 3][0] == text[k];
    }
    assert text[17..20] == "bar";
    IndexOfFromIsFirst(text, "bar", 0, 17);
  }

  lemma MiddleSentenceChars(text: string)
    requires text == "Hello world. Foo bar baz. Another one."
    ensures IsBoundary(text, 11) && forall k :: 11 < k <= 17 ==> !IsBoundary(text, k)
    ensures IsTerminator(text[24]) && forall k :: 20 <= k < 24 ==> !IsTerminator(text[k])
  {
  }

  lemma MiddleSentenceScans(text: string)
    requires text == "Hello world. Foo bar baz. Another one."
    ensures SentenceStart(text, 17) == 13 && SentenceEnd(text, 20) == 25
  {
    MiddleSentenceChars(text);
    SentenceStartIsLastBoundary(text, 17, 11);
    SentenceEndIsFirstTerminator(text, 20, 24);
  }

  /**
   * The end scan starts after the selection, so a selection that ends with its own
   * terminator runs on into the next sentence: `"A. B. C."` with `"B."` selected
   * gives `"B. C."`.
   */
  lemma ExampleSelectionEndsAtTerminator(text: string)
    requires text == "A. B. C."
    ensures SentenceOf(text, "B.") == "B. C."
  {
    TerminatorSelectionIndex(text);
    TerminatorSelectionScans(text);
    SentenceAtUnfold(text, "B.", 3);
    assert text[3..8] == "B. C.";
    TrimmedExample("B. C.");
  }

  lemma TerminatorSelectionIndex(text: string)
    requires text == "A. B. C."
    ensures IndexOf(text, "B.") == 3
  {
    forall k | 0 <= k < 3 ensures !MatchesAt(text, "B.", k) {
      assert text[k..k + 2][0] == text[k];
    }
    assert text[3..5] == "B.";
    IndexOfFromIsFirst(text, "B.", 0, 3);
  }

  lemma TerminatorSelectionScans(text: string)
    requires text == "A. B. C."
    ensures SentenceStart(text, 3) == 3 && SentenceEnd(text, 5) == 8
  {
    assert IsBoundary(text, 1) && !IsBoundary(text, 2) && !IsBoundary(text, 3);
    SentenceStartIsLastBoundary(text, 3, 1);
    SentenceEndIsFirstTerminator(text, 5, 7);
  }

  /**
   * The start scan begins at the selection itself, so a one-character selection
   * that is a terminator followed by a space is taken as the previous sentence's
   * end: `"A. B."` with `"."` selected gives the NEXT sentence `"B."`, which starts
   * after the selected character.
   */
  lemma ExampleTerminatorSelectionSkipped(text: string)
    requires text == "A. B."
    ensures SentenceOf(text, ".") == "B."
    ensures SentenceStart(text, IndexOf(text, ".")) > IndexOf(text, ".")
  {
    SkippedTerminatorIndex(text);
    SkippedTerminatorScans(text);
    SentenceAtUnfold(text, ".", 1);
    assert text[3..5] == "B.";
    TrimmedExample("B.");
  }

  lemma SkippedTerminatorIndex(text: string)
    requires text == "A. B."
    ensures IndexOf(text, ".") == 1
  {
    assert !MatchesAt(text, ".", 0) by { assert text[0..1][0] == text[0]; }
    assert text[1..2] == ".";
    IndexOfFromIsFirst(text, ".", 0, 1);
  }

  lemma SkippedTerminatorScans(text: string)
    requires text == "A. B."
    ensures SentenceStart(text, 1) == 3 && SentenceEnd(text, 2) == 5
  {
    assert IsBoundary(text, 1);
    SentenceEndIsFirstTerminator(text, 2, 4);
  }

  /** Any boundary with none after it up to `selIndex` fixes the start. */
  lemma {:induction false} SentenceStartIsLastBoundary(text: string, selIndex: nat, b: nat)
    requires b <= selIndex && IsBoundary(text, b)
    requires forall k :: b < k <= selIndex ==> !IsBoundary(text, k)
    ensures SentenceStart(text, selIndex) == b + 2
    decreases selIndex - b
  {
    if selIndex > b {
      SentenceStartIsLastBoundary(text, selIndex - 1, b);
    }
  }

  /** Any terminator with none before it from `from` fixes the end. */
  lemma {:induction false} SentenceEndIsFirstTerminator(text: string, from: nat, t: nat)
    requires from <= t < |text| && IsTerminator(text[t])
    requires forall k :: from <= k < t ==> !IsTerminator(text[k])
    ensures SentenceEnd(text, from) == t + 1
    decreases t - from
  {
    if from < t {
      SentenceEndIsFirstTerminator(text, from + 1, t);
    }
  }
}
