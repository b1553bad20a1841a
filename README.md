# Inline translation extension — a verified model

This project models the logic of a browser extension that translates page text
inline. Holding Ctrl (one word) or Alt (a sentence) highlights the text element
under the cursor. Clicking it opens a floating card and sends a `translate`
request to the background service worker. The worker answers from a five-minute
cache, or else asks a chat-completion API. The reply fills the card with the
escaped result, or with an error the user can click to retry. Cards stack down
the page in creation order.

The model has four parts, one per source file:

- `sentence.dfy`, module `Sentence`, models `utils/sentence.js`. `extendToSentence`:
  - walks the `parentElement` chain to the first element that is not displayed inline;
  - finds the first occurrence of the trimmed selection in that element's text;
  - scans backwards for a terminator (`.`, `?`, `!`) followed by a space;
  - scans forwards for the next terminator;
  - returns the trimmed text in between, falling back to the selection.

  The three loops are `while` loops, each proved against a recursive specification function. The model keeps one behaviour of the code as written: the forward scan starts just after the selection. So when the selection itself ends in a terminator, the sentence runs on to the next one (`"A. B. C."` with selection `"B."` gives `"B. C."`, lemma `ExampleSelectionEndsAtTerminator`). The backward scan, in turn, starts at the selection itself. So a one-character selection that is a terminator followed by a space counts as the end of the previous sentence, and the result is the next sentence, which does not contain the selected character (`"A. B."` with selection `"."` gives `"B."`, lemma `ExampleTerminatorSelectionSkipped`).
- `queue.dfy`, module `Queue`, models `utils/queue.js`. `layoutCards` sorts the card elements by their numeric `data-order` in place (an array of `CardElement` objects). It then sets each card's `top` to 20 plus the heights of the cards before it plus 20 pixels per gap.
- `content_script.dfy` models `content_script.js` in two modules:
  - `ContentScript` is the specification: `escapeHtml`, the word check `/^[a-zA-Z-]+$/`, and every handler as a pure transition on a `Session`. A `Session` holds:
    - the globals `isFeatureEnabled`, `ctrlPressed`, `altPressed`, `lastHoveredElement` and `cardOrder`;
    - the set of highlighted elements;
    - the cards on the page;
    - the messages sent.
  - `ContentPage.Page` holds the same globals as mutable fields. Each of its handlers is proved to perform exactly that transition and to preserve the session invariant: at most one highlighted element, and distinct card orders below the counter.
- `service_worker.dfy`, module `ServiceWorker`, models `service_worker.js`. It covers:
  - the `onMessage` listener's guards;
  - the cache key `context || text`;
  - the strict five-minute freshness test;
  - the cache update;
  - the reply shape.

  `translateText` is modelled as the API's answer passed in as a value, plus the function's own error cases. `Worker.OnMessage` updates the `cache` field and is proved equal to the pure `Handle`.

Shared pieces:
- `text.dfy`, module `Text`: JavaScript's `trim` and `indexOf`.
- `messages.dfy`, module `Messages`: the request and reply records.
- `wrappers.dfy`, module `Wrappers`: `Option` and `Result`.

Inputs that come from the browser are parameters of the model:
- DOM facts: the element under the cursor, `textContent`, computed `display` and `offsetHeight`;
- the clock readings;
- the stored API key;
- the API's HTTP answer;
- the freshly generated card id.

Deferred timer callbacks (`setTimeout` of 10 ms and 300 ms) and the close and retry clicks are explicit events.

## Model

| member | source | states |
|---|---|---|
| Text.SkipSpace | itf-extension/utils/sentence.js:12 | the leading-whitespace scan of `trim` stops at the end or at a non-space character |
| Text.SkipSpaceBack | itf-extension/utils/sentence.js:52 | the trailing-whitespace scan of `trim` stops at the lower bound or just after a non-space character |
| Text.TrimHi | itf-extension/utils/sentence.js:12 | the trimmed end never precedes the trimmed start |
| Text.Trim | itf-extension/utils/sentence.js:12 | the trimmed string is empty or starts and ends with a non-space character |
| Text.SkipSpaceSkipsOnlySpace | itf-extension/utils/sentence.js:12 | every character the leading scan skips is whitespace |
| Text.SkipSpaceBackSkipsOnlySpace | itf-extension/utils/sentence.js:52 | every character the trailing scan skips is whitespace |
| Text.TrimSplits | itf-extension/utils/sentence.js:52 | a string is whitespace + its trim + whitespace |
| Text.TrimEmptyIff | itf-extension/content_script.js:96-97 | `trim` gives the empty string exactly when the string is all whitespace |
| Text.TrimIdempotent | itf-extension/utils/sentence.js:12 | trimming twice is trimming once |
| Text.IndexOfFrom | itf-extension/utils/sentence.js:27 | the result is -1 and there is no match at or after `from`, or it is the first match at or after `from` |
| Text.IndexOf | itf-extension/utils/sentence.js:27 | -1 exactly when the pattern occurs nowhere; otherwise the first position where it occurs |
| Text.IndexOfFromIsFirst | itf-extension/utils/sentence.js:27 | the first match after `from` is what the search returns |
| Text.IndexOfIgnoresSuffix | itf-extension/utils/sentence.js:27 | appending text cannot move an occurrence that already exists |
| Sentence.SentenceStart | itf-extension/utils/sentence.js:35-41 | a non-zero start is two past a terminator-plus-space at an index in [1, selIndex] |
| Sentence.SentenceEnd | itf-extension/utils/sentence.js:44-50 | the end lies in [from, length]; past `from` whenever text remains; and just after a terminator unless it is the text's end |
| Sentence.SentenceStartIsLast | itf-extension/utils/sentence.js:35-41 | the start is 0 exactly when there is no boundary in [1, selIndex], and no boundary lies after the one found |
| Sentence.SentenceEndIsFirst | itf-extension/utils/sentence.js:44-50 | no terminator lies between `from` and the one the end follows |
| Sentence.SentenceStartIsLastBoundary | itf-extension/utils/sentence.js:35-41 | with the last boundary at `b`, the start is `b + 2` |
| Sentence.SentenceEndIsFirstTerminator | itf-extension/utils/sentence.js:44-50 | with the first terminator at `t`, the end is `t + 1` |
| Sentence.SentenceBounds | itf-extension/utils/sentence.js:35-52 | 0 <= start <= end <= length wherever the selection is found, so `substring` never swaps its arguments |
| Sentence.SentenceAt | itf-extension/utils/sentence.js:52-55 | the sentence around a found non-empty selection is never empty |
| Sentence.SentenceBetween | itf-extension/utils/sentence.js:52-55 | the trimmed slice, or the fallback when that is empty, so it is non-empty when the fallback is |
| Sentence.SentenceOf | itf-extension/utils/sentence.js:27-55 | a selection that is not found is returned as is; a non-empty selection gives a non-empty result |
| Sentence.SentenceOfFound | itf-extension/utils/sentence.js:27-32 | when the selection is found, the result is the sentence around its first occurrence |
| Sentence.SentenceAtUnfold | itf-extension/utils/sentence.js:52-55 | the sentence is the trimmed slice between the two scans, or the selection |
| Sentence.BlockAncestor | itf-extension/utils/sentence.js:17-20 | none exactly when every ancestor is inline; otherwise the first ancestor that is not inline |
| Sentence.FindBlockAncestor | itf-extension/utils/sentence.js:17-20 | the `while` loop up the `parentElement` chain finds `BlockAncestor` |
| Sentence.BlockAncestorIsFirst | itf-extension/utils/sentence.js:17-20 | any index that is the first non-inline ancestor is the one found |
| Sentence.FindSentenceStart | itf-extension/utils/sentence.js:35-41 | the backward `for` loop with `break` computes `SentenceStart` |
| Sentence.FindSentenceEnd | itf-extension/utils/sentence.js:44-50 | the forward `for` loop with `break` computes `SentenceEnd` |
| Sentence.SentenceAtIndex | itf-extension/utils/sentence.js:35-55 | the two scans, the substring, the trim and the fallback compute `SentenceAt` |
| Sentence.SentenceAround | itf-extension/utils/sentence.js:26-55 | `indexOf`, the -1 fallback and the scans compute `SentenceOf` |
| Sentence.Extract | itf-extension/utils/sentence.js:7-24 | no selection, or no range, gives `''` and no anchor; otherwise the anchor is the selection's anchor node |
| Sentence.ExtendToSentence | itf-extension/utils/sentence.js:7-56 | the whole function computes `Extract` |
| Sentence.FallbackWithoutBlockText | itf-extension/utils/sentence.js:22-24 | with no non-inline ancestor, or one with empty text, the result is the trimmed selection |
| Sentence.ExtractNonEmpty | itf-extension/utils/sentence.js:52-55 | a non-empty trimmed selection always gives a non-empty sentence |
| Sentence.SentenceIsInfix | itf-extension/utils/sentence.js:52 | a result other than the selection is the trimmed slice between the scans, and the slice ends at or after the end of the selection |
| Sentence.SentenceEndIgnoresSuffix | itf-extension/utils/sentence.js:44-50 | text after the first terminator does not move the end |
| Sentence.SentenceStartIgnoresSuffix | itf-extension/utils/sentence.js:35-41 | text after the scanned region does not move the start |
| Sentence.ScansIgnoreSuffix | itf-extension/utils/sentence.js:35-50 | text after a terminator past the selection moves neither scan |
| Sentence.SentenceAtIgnoresSuffix | itf-extension/utils/sentence.js:35-55 | text after a terminator past the selection leaves the sentence unchanged |
| Sentence.SentenceOfIgnoresLaterText | itf-extension/utils/sentence.js:27 | only the first occurrence matters: text appended after the sentence that ends the first occurrence changes nothing |
| Sentence.ExampleShortSentences | itf-extension/utils/sentence.js:35-55 | `"A. B! C?"` with `"B"` gives `"B!"` |
| Sentence.ShortSentenceIndex | itf-extension/utils/sentence.js:27 | `"B"` is found at 3 in `"A. B! C?"` |
| Sentence.ShortSentenceScans | itf-extension/utils/sentence.js:35-50 | the scans give 3 and 5 there |
| Sentence.TrimmedExample | itf-extension/utils/sentence.js:52 | a string with no whitespace at either end trims to itself |
| Sentence.ExampleMiddleSentence | itf-extension/utils/sentence.js:35-55 | `"Hello world. Foo bar baz. Another one."` with `"bar"` gives `"Foo bar baz."` |
| Sentence.MiddleSentenceSlice | itf-extension/utils/sentence.js:52 | the slice [13, 25) of that text is `"Foo bar baz."` |
| Sentence.MiddleSentenceIndex | itf-extension/utils/sentence.js:27 | `"bar"` is found at 17 |
| Sentence.MiddleSentenceChars | itf-extension/utils/sentence.js:37 | index 11 is the last boundary before 17, and index 24 is the first terminator from 20 |
| Sentence.MiddleSentenceScans | itf-extension/utils/sentence.js:35-50 | the scans give 13 and 25 there |
| Sentence.ExampleSelectionEndsAtTerminator | itf-extension/utils/sentence.js:44-50 | `"A. B. C."` with `"B."` gives `"B. C."`: the end scan starts after the selection's own terminator |
| Sentence.TerminatorSelectionIndex | itf-extension/utils/sentence.js:27 | `"B."` is found at 3 |
| Sentence.TerminatorSelectionScans | itf-extension/utils/sentence.js:35-50 | the scans give 3 and 8 there |
| Sentence.ExampleTerminatorSelectionSkipped | itf-extension/utils/sentence.js:35-41 | `"A. B."` with `"."` gives `"B."`: the start scan stops at the selected terminator, so the sentence starts after the selection |
| Sentence.SkippedTerminatorIndex | itf-extension/utils/sentence.js:27 | `"."` is found at 1 in `"A. B."` |
| Sentence.SkippedTerminatorScans | itf-extension/utils/sentence.js:35-50 | the scans give 3 and 5 there |
| Queue.CardElement.constructor | itf-extension/utils/queue.js:7 | a card element with its order and height |
| Queue.HeightsOf | itf-extension/utils/queue.js:15 | one height per card |
| Queue.HeightsOfAt | itf-extension/utils/queue.js:15 | the k-th height is the k-th card's `offsetHeight` |
| Queue.Swap | itf-extension/utils/queue.js:9 | exchanges two cards and keeps the multiset of cards |
| Queue.SortByOrder | itf-extension/utils/queue.js:8-10 | the array ends sorted by `order` and is a permutation of what it was |
| Queue.AssignTops | itf-extension/utils/queue.js:12-16 | every card's top is 20 plus the heights before it plus one gap per earlier card |
| Queue.LayoutCards | itf-extension/utils/queue.js:7-17 | the same cards, sorted by order, with each top as `AssignTops` states; only `top` is written |
| Queue.LaidOutStack | itf-extension/utils/queue.js:12-16 | after layout the first card is at 20, each later card at the previous top plus its height plus `GAP`, and tops strictly increase |
| Queue.TopAt | itf-extension/utils/queue.js:12-16 | specification of the accumulated `top`: 20 for the first card, then the previous top plus the previous card's height plus `GAP` |
| Queue.TopAtLowerBound | itf-extension/utils/queue.js:12-16 | the k-th top is at least 20 + 20k |
| Queue.TopAtIncreasing | itf-extension/utils/queue.js:12-16 | tops grow by at least one gap per card |
| Queue.TopAtClosedForm | itf-extension/utils/queue.js:12-16 | the k-th top is 20 + the sum of the first k heights + 20k |
| Queue.DistinctAfterPermutation | itf-extension/utils/queue.js:8-10 | the sort cannot make one element appear twice |
| Queue.OrdersDistinctAfterPermutation | itf-extension/utils/queue.js:8-10 | distinct orders stay distinct under rearrangement |
| Queue.SortedArrangementUnique | itf-extension/utils/queue.js:8-10 | with distinct orders there is exactly one sorted arrangement of a set of cards |
| Queue.SortedHeadsAgree | itf-extension/utils/queue.js:8-10 | two sorted arrangements start with the same card |
| Queue.TailKeepsOrder | itf-extension/utils/queue.js:8-10 | dropping the first card keeps the rest sorted and distinct |
| Queue.LayoutIgnoresDocumentOrder | itf-extension/utils/queue.js:7-17 | any document order of the same cards gives the same arrangement and the same tops |
| Queue.LayoutIdempotent | itf-extension/utils/queue.js:7-17 | laying out an already laid-out stack gives the same arrangement and tops |
| ContentScript.ReplaceAll | itf-extension/content_script.js:220 | specification of `replace(/c/g, r)`: every occurrence of one character replaced, left to right |
| ContentScript.EscapeHtml | itf-extension/content_script.js:218-225 | specification of `escapeHtml`: the five global replaces in the source's order, `&` first; its meaning is given by `EscapeHtmlIsPerCharacter` and `EscapeHtmlRoundTrip` |
| ContentScript.EscapeChar | itf-extension/content_script.js:218-225 | the escape of one character contains no raw `<`, `>`, `"` or `'`, and starts with `&` exactly for the five special characters |
| ContentScript.ReplaceAllAppend | itf-extension/content_script.js:220 | a global `replace` distributes over concatenation |
| ContentScript.EscapeHtmlAppend | itf-extension/content_script.js:218-225 | `escapeHtml` distributes over concatenation |
| ContentScript.ReplaceAllAbsent | itf-extension/content_script.js:220 | replacing an absent character changes nothing |
| ContentScript.ReplaceAllSingle | itf-extension/content_script.js:220 | replacing in a one-character string |
| ContentScript.EscapeHtmlPlain | itf-extension/content_script.js:218-225 | a character that is not special passes through |
| ContentScript.MarkupPassesKeep | itf-extension/content_script.js:221-224 | the four passes after `&` leave markup-free text unchanged, so entities are not escaped twice |
| ContentScript.EscapeHtmlAmp | itf-extension/content_script.js:220 | `&` becomes `&amp;` |
| ContentScript.EscapeHtmlLt | itf-extension/content_script.js:221 | `<` becomes `&lt;` |
| ContentScript.EscapeHtmlGt | itf-extension/content_script.js:222 | `>` becomes `&gt;` |
| ContentScript.EscapeHtmlQuot | itf-extension/content_script.js:223 | `"` becomes `&quot;` |
| ContentScript.EscapeHtmlApos | itf-extension/content_script.js:224 | `'` becomes `&#039;` |
| ContentScript.EscapeHtmlChar | itf-extension/content_script.js:218-225 | the chain of five replaces on one character is that character's escape |
| ContentScript.EscapeHtmlIsPerCharacter | itf-extension/content_script.js:218-225 | the five sequential passes equal escaping each character once |
| ContentScript.EscapedHasNoMarkup | itf-extension/content_script.js:218-225 | the escaped text has no raw markup characters |
| ContentScript.EscapedWithoutSpecials | itf-extension/content_script.js:218-225 | text without special characters escapes to itself |
| ContentScript.UnescapeAmp | itf-extension/content_script.js:220 | decoding `&amp;` gives back `&` |
| ContentScript.UnescapeLt | itf-extension/content_script.js:221 | decoding `&lt;` gives back `<` |
| ContentScript.UnescapeGt | itf-extension/content_script.js:222 | decoding `&gt;` gives back `>` |
| ContentScript.UnescapeQuot | itf-extension/content_script.js:223 | decoding `&quot;` gives back `"` |
| ContentScript.UnescapeApos | itf-extension/content_script.js:224 | decoding `&#039;` gives back `'` |
| ContentScript.UnescapePlain | itf-extension/content_script.js:218-225 | a character other than `&` decodes to itself |
| ContentScript.UnescapeEscapeChar | itf-extension/content_script.js:218-225 | decoding an escaped character gives that character back |
| ContentScript.EscapeHtmlRoundTrip | itf-extension/content_script.js:218-225 | decoding `escapeHtml(s)` gives `s` back: nothing is lost or double-escaped |
| ContentScript.EscapedRoundTrip | itf-extension/content_script.js:218-225 | the same round trip for the per-character escape |
| ContentScript.EscapeHtmlHasNoMarkup | itf-extension/content_script.js:218-225 | `escapeHtml` output has no raw `<`, `>`, `"` or `'` |
| ContentScript.EscapeHtmlWithoutSpecials | itf-extension/content_script.js:218-225 | a string with none of the five characters is returned unchanged |
| ContentScript.WordExamples | itf-extension/content_script.js:124 | `"hello-world"` is a word; `"hello world"` and `"hello2"` are not |
| ContentScript.IsWord | itf-extension/content_script.js:124 | specification of `/^[a-zA-Z-]+$/`: non-empty, every character an ASCII letter or `-` |
| ContentScript.WordHasNoSpace | itf-extension/content_script.js:124 | a word contains no whitespace |
| ContentScript.RemoveHighlight | itf-extension/content_script.js:106-111 | specification of `removeHighlight`: the last hovered element loses the class and the global is cleared |
| ContentScript.HandleHighlight | itf-extension/content_script.js:76-104 | specification of `handleHighlight`: each branch of the source, with `RemoveHighlight` before a new highlight |
| ContentScript.RenderFloatingCard | itf-extension/content_script.js:158-177 | specification of `renderFloatingCard`: a `loading` card with a spinner and the counter as order, the counter incremented, its 10 ms timer scheduled |
| ContentScript.HandleTranslationTrigger | itf-extension/content_script.js:113-145 | specification of `handleTranslationTrigger`: blank text and non-words in Ctrl mode do nothing; otherwise a card, one request and the highlight cleared |
| ContentScript.UpdateFloatingCard | itf-extension/content_script.js:184-206 | specification of `updateFloatingCard`: only the matching card's body changes |
| ContentScript.MarkDone | itf-extension/content_script.js:174-177 | specification of the 10 ms callback: a pending timer fires once and sets the card to `done` |
| ContentScript.Retry | itf-extension/content_script.js:194-203 | specification of the retry click: spinner back, the request resent |
| ContentScript.RemoveCard | itf-extension/content_script.js:208-212 | specification of `removeCard`: `closing`, with the 300 ms timer scheduled |
| ContentScript.DropCard | itf-extension/content_script.js:212-215 | specification of the 300 ms callback: a pending timer fires once and removes the card |
| ContentScript.Step | itf-extension/content_script.js:13-216 | specification of every listener and callback, with the guards of each handler |
| ContentScript.ParentContext | itf-extension/content_script.js:120 | the context is non-empty whenever the text is |
| ContentScript.InitialInv | itf-extension/content_script.js:2-8 | the injected state satisfies the invariant |
| ContentScript.AtMostOneHighlighted | itf-extension/content_script.js:94-111 | at most one element is highlighted, and it is `lastHoveredElement` when that is set |
| ContentScript.RemoveHighlightClears | itf-extension/content_script.js:106-111 | `removeHighlight` leaves nothing highlighted, is idempotent, and touches nothing else |
| ContentScript.RenderKeepsOrders | itf-extension/content_script.js:158-162 | a new card is `loading` with a spinner and gets the counter as order, above every live card's order |
| ContentScript.HandleHighlightInv | itf-extension/content_script.js:76-104 | `handleHighlight` keeps the invariant |
| ContentScript.TriggerInv | itf-extension/content_script.js:113-145 | `handleTranslationTrigger` keeps the invariant |
| ContentScript.RemoveHighlightInv | itf-extension/content_script.js:106-111 | `removeHighlight` keeps the invariant |
| ContentScript.SameCardsInv | itf-extension/content_script.js:1-8 | a change that leaves the highlight, counter and cards alone keeps the invariant |
| ContentScript.ReplaceCardInv | itf-extension/content_script.js:184-216 | rewriting a card without changing its order keeps the invariant |
| ContentScript.UpdateFloatingCardInv | itf-extension/content_script.js:184-206 | `updateFloatingCard` keeps the invariant |
| ContentScript.MarkDoneInv | itf-extension/content_script.js:174-177 | the 10 ms timer keeps the invariant |
| ContentScript.RetryInv | itf-extension/content_script.js:194-203 | the retry click keeps the invariant |
| ContentScript.RemoveCardInv | itf-extension/content_script.js:208-211 | `removeCard` keeps the invariant |
| ContentScript.DropCardInv | itf-extension/content_script.js:212-215 | the 300 ms timer keeps the invariant |
| ContentScript.SettingsAndKeysInv | itf-extension/content_script.js:13-51 | the storage and key handlers keep the invariant |
| ContentScript.CardEventsInv | itf-extension/content_script.js:149-216 | the message, timer and card-click handlers keep the invariant |
| ContentScript.StepInv | itf-extension/content_script.js:13-216 | every handler keeps the invariant |
| ContentScript.RunInv | itf-extension/content_script.js:13-216 | every sequence of events keeps the invariant |
| ContentScript.ReachableInv | itf-extension/content_script.js:1-216 | every reachable state satisfies the invariant and has at most one highlighted element |
| ContentScript.DisabledIgnoresInput | itf-extension/content_script.js:30-71 | while the feature is off, key, mouse and click events change nothing |
| ContentScript.DisablingClearsHighlight | itf-extension/content_script.js:18-26 | turning the feature off clears the highlight |
| ContentScript.KeyUpResets | itf-extension/content_script.js:44-51 | releasing Ctrl or Alt resets both flags and clears the highlight |
| ContentScript.KeyRepeatIgnored | itf-extension/content_script.js:38 | auto-repeat of a held modifier changes nothing |
| ContentScript.HighlightIff | itf-extension/content_script.js:85-100 | a hovered element becomes highlighted exactly when it is outside every card, has a single text child and non-empty trimmed text; it is then the only one |
| ContentScript.OtherShapesClear | itf-extension/content_script.js:79-103 | no element, or any other shape, clears the highlight |
| ContentScript.BlankClickIgnored | itf-extension/content_script.js:114-115 | a click on blank text does nothing |
| ContentScript.WordModeRejects | itf-extension/content_script.js:122-127 | in word mode a non-word renders no card and sends nothing |
| ContentScript.TriggerSends | itf-extension/content_script.js:113-145 | a valid click renders a loading card, sends one request (Ctrl: the parent's text or the text as context; Alt: the text), bumps the counter and clears the highlight |
| ContentScript.UnmatchedMessageIgnored | itf-extension/content_script.js:149-186 | a reply of another type, without an id, or for no live card changes nothing |
| ContentScript.ReplyChangesOnlyBody | itf-extension/content_script.js:184-206 | a matching reply changes only that card's body: the escaped result, or `Translation failed: ` and the escaped error |
| ContentScript.RetryResendsSource | itf-extension/content_script.js:194-203 | retry shows the spinner and resends the same id with the card's source as text and context |
| ContentScript.RetryNeedsError | itf-extension/content_script.js:193-194 | only a card showing an error can be retried |
| ContentScript.CardLifecycle | itf-extension/content_script.js:162-215 | through the events: a card is rendered `loading` with its 10 ms timer pending, the timer makes it `done`, closing makes it `closing` and schedules removal, and the 300 ms timer removes it, once |
| ContentScript.UnscheduledTimersIgnored | itf-extension/content_script.js:174-215 | a 10 ms or 300 ms callback that was never scheduled does nothing |
| ContentScript.CardLeavesOnlyByRemoveTimer | itf-extension/content_script.js:212-215 | the only event that takes a card off the page is its scheduled 300 ms timer |
| ContentScript.RemovalScheduledOnlyByClose | itf-extension/content_script.js:179-181 | only a click on a live card's close button schedules its removal |
| ContentScript.RemovalNeedsTimer | itf-extension/content_script.js:212-215 | over any run, a card that leaves the page met its removal timer |
| ContentScript.RemovalNeedsClose | itf-extension/content_script.js:179-215 | over any run, a card with no removal pending leaves the page only after a click on its close button followed by the removal timer |
| ContentPage.Page.constructor | itf-extension/content_script.js:1-8 | the globals start disabled, with no modifier, no highlight and counter 0 |
| ContentPage.Page.RemoveHighlight | itf-extension/content_script.js:106-111 | performs the `RemoveHighlight` transition on the fields |
| ContentPage.Page.HandleHighlight | itf-extension/content_script.js:76-104 | performs the `HandleHighlight` transition |
| ContentPage.Page.RenderFloatingCard | itf-extension/content_script.js:158-182 | performs the `RenderFloatingCard` transition |
| ContentPage.Page.HandleTranslationTrigger | itf-extension/content_script.js:113-145 | performs the `HandleTranslationTrigger` transition |
| ContentPage.Page.UpdateFloatingCard | itf-extension/content_script.js:184-206 | performs the `UpdateFloatingCard` transition |
| ContentPage.Page.OnSettingLoaded | itf-extension/content_script.js:13-15 | performs the step for the stored setting and keeps the invariant |
| ContentPage.Page.OnSettingChanged | itf-extension/content_script.js:18-26 | performs the step for a storage change and keeps the invariant |
| ContentPage.Page.OnKeyDown | itf-extension/content_script.js:30-42 | performs the keydown step and keeps the invariant |
| ContentPage.Page.OnKeyUp | itf-extension/content_script.js:44-51 | performs the keyup step and keeps the invariant |
| ContentPage.Page.OnMouseMove | itf-extension/content_script.js:54-59 | performs the mousemove step and keeps the invariant |
| ContentPage.Page.OnClick | itf-extension/content_script.js:62-71 | performs the click step and keeps the invariant |
| ContentPage.Page.OnMessage | itf-extension/content_script.js:149-153 | performs the reply step and keeps the invariant |
| ContentPage.Page.OnDoneTimer | itf-extension/content_script.js:174-177 | performs the 10 ms timer step and keeps the invariant |
| ContentPage.Page.OnRetryClick | itf-extension/content_script.js:194-203 | performs the retry step and keeps the invariant |
| ContentPage.Page.RemoveCard | itf-extension/content_script.js:208-211 | performs the close-click step and keeps the invariant |
| ContentPage.Page.OnRemoveTimer | itf-extension/content_script.js:212-215 | performs the 300 ms timer step and keeps the invariant |
| ServiceWorker.NatToString | itf-extension/service_worker.js:91 | the status code prints as a non-empty string of decimal digits that denote it, with no leading zero except for zero itself |
| ServiceWorker.TranslateText | itf-extension/service_worker.js:57-103 | no API key fails with the missing-key message; a network failure passes its message on; an HTTP error fails with the body's message or `HTTP error! status: ` and the status; a completion succeeds exactly when it is present and trims to something non-empty, and the success is that trimmed text; otherwise it fails with the invalid-response message |
| ServiceWorker.HttpStatusMessage | itf-extension/service_worker.js:89-93 | a 404 without a body message fails with `HTTP error! status: 404` |
| ServiceWorker.CacheKey | itf-extension/service_worker.js:19 | the key is the context when it is non-empty, otherwise the text |
| ServiceWorker.IsFresh | itf-extension/service_worker.js:23 | specification of the freshness test: strictly less than five minutes old |
| ServiceWorker.Handles | itf-extension/service_worker.js:11-14 | specification of the two guards: type `translate` and non-empty text |
| ServiceWorker.Handle | itf-extension/service_worker.js:9-50 | no reply exactly for ignored messages; every reply is a `translationResult` with the request's id; errors are never empty; no key is removed |
| ServiceWorker.Worker.constructor | itf-extension/service_worker.js:5 | the cache starts empty |
| ServiceWorker.Worker.OnMessage | itf-extension/service_worker.js:9-50 | the listener's new cache and reply are those of `Handle` |
| ServiceWorker.IgnoredRequestsChangeNothing | itf-extension/service_worker.js:11-14 | another message type or empty text gives no cache change and no reply |
| ServiceWorker.FreshHitUsesCache | itf-extension/service_worker.js:23-24 | an entry younger than five minutes is replied without asking the API |
| ServiceWorker.ExactlyFiveMinutesIsStale | itf-extension/service_worker.js:6-23 | an entry exactly five minutes old is stale and is replaced |
| ServiceWorker.MissStoresResult | itf-extension/service_worker.js:26-36 | on a miss a success overwrites only that key with (completion time, result) and replies with it |
| ServiceWorker.FailureWritesNothing | itf-extension/service_worker.js:37-44 | a failed translation leaves the cache unchanged and replies with the error, or `Unknown error` |
| ServiceWorker.MissingKeyFailsWithoutCaching | itf-extension/service_worker.js:61-63 | without an API key a miss fails with the missing-key message and caches nothing |
| ServiceWorker.EntryChangesOnlyOnSuccessfulMiss | itf-extension/service_worker.js:23-27 | an existing entry changes only when a handled request for its key finds it stale and the translation succeeds |
| ServiceWorker.ReplayNeverDeletes | itf-extension/service_worker.js:26-27 | over any run no cache entry is ever deleted |
| ServiceWorker.ReplayStoresOnlyTranslations | itf-extension/service_worker.js:26-27 | over any run every cached result is a non-empty translation |

## Left out

- The DOM is not modelled. `elementFromPoint`, `closest`, `classList`, `childNodes`, `getComputedStyle`, `textContent`, `offsetHeight` and `querySelector` become values passed in.
- Markup strings built with `innerHTML` are not parsed. A card keeps its source text and its body as values; `EscapeHtmlRoundTrip` shows that the escaped text decodes back to what was escaped.
- `card.style.opacity`, `transform`, `preventDefault` and `stopPropagation` have no effect on the modelled state.
- `chrome.storage`, `chrome.runtime.sendMessage` and `chrome.tabs.sendMessage` are not modelled as channels. Sent requests are appended to `sent`, the stored flag and API key are parameters, and replies are returned values.
- The popup and options pages are not part of this model. Their settings reach the model only as the stored flag and the API key.
- `fetch`, the request body and JSON decoding in `translateText` are not modelled. The API's answer is an `ApiResponse` value that keeps only what the function inspects.
- `ServiceWorker.Worker.OnMessage` runs the async listener to completion. Two requests interleaving across the `await` are not modelled, and `Date.now()` before and after the call are two parameters.
- `ContentScript.HandleTranslationTrigger` takes the card id as a parameter. `Date.now()` and `Math.random()` are not modelled, and a repeated id would replace the existing card in the map.
- `ContentScript.Step` treats `target.parentElement` as always present. A target without a parent throws in the source, which is not modelled.
- A reply whose `result` or `error` is missing is not modelled. The source would escape `undefined` and throw; the model's reply always carries a string.
- The 10 ms timer sets a card to `done` even after it was closed, as the source's callback does; it does not check the state.
- A pending timer is recorded per card id. Two close clicks before the removal schedule one removal, not two. In the source the second 300 ms callback finds the card already gone, so the page ends up the same.
- The `layoutCards()` calls from the content script are not composed with its handlers. `Queue` models the layout on its own, and a card's height is a constant of the `CardElement`.
- Queue.SortByOrder: insertion sort stands in for the engine's `Array.prototype.sort`. The proved result, the one sorted arrangement for distinct orders, is the same; the contract does not fix the relative order of equal orders, which the content script's distinct card orders rule out anyway.
- Strings are sequences of Unicode scalar values, while JavaScript indexes UTF-16 code units. For text with characters outside the Basic Multilingual Plane, such as emoji, the model's indices differ from the source's, and lone surrogates cannot be represented.
- Text.Trim: only tab, line feed, vertical tab, form feed, carriage return, space, no-break space and the byte-order mark count as whitespace, not every Unicode space separator or line terminator.
- Logging is not modelled: the `console.warn` in the content script and the `console.error` in the service worker have no effect on the modelled state.
- `extendToSentence` is not called by the content script, so `Sentence` is modelled on its own.
