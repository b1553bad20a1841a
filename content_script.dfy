/**
 * The content script of `content_script.js`, as a state machine over its
 * module-level globals and the floating cards it puts on the page.
 *
 * The DOM is abstracted: an element is the handful of facts the handlers read off
 * it (`Element`), the highlight class is the set of elements that carry it, and a
 * card is its `data-order`, `data-itf-state`, source text and body. Timers and
 * listener callbacks are explicit events. Messages sent with
 * `chrome.runtime.sendMessage` are appended to `sent`.
 *
 * This module is the specification: pure transition functions and what they
 * guarantee. Module `ContentPage` below holds the globals as fields of a class
 * whose handlers are proved to perform exactly these transitions.
 */
module ContentScript {
  import opened Wrappers
  import opened Messages
  import Text

  // ---------------------------------------------------------------------------
  // escapeHtml

  /** The five characters `escapeHtml` rewrites. */
  predicate IsSpecial(c: char)
  {
    c == '&' || c == '<' || c == '>' || c == '"' || c == '\''
  }

  /** Characters that would open a tag or end an attribute value in markup. */
  predicate IsMarkup(c: char)
  {
    c == '<' || c == '>' || c == '"' || c == '\''
  }

  /** The entity for one character, or the character itself. */
  function EscapeChar(c: char): (r: string)
    ensures |r| > 0 && r[0] == (if IsSpecial(c) then '&' else c)
    ensures forall i :: 0 <= i < |r| ==> !IsMarkup(r[i])
  {
    if c == '&' then "&amp;"
    else if c == '<' then "&lt;"
    else if c == '>' then "&gt;"
    else if c == '"' then "&quot;"
    else if c == '\'' then "&#039;"
    else [c]
  }

  /** Reference definition: every character escaped on its own, left to right. */
  function Escaped(s: string): string
  {
    if s == [] then [] else EscapeChar(s[0]) + Escaped(s[1..])
  }

  /** `s.replace(/c/g, replacement)` for a single-character pattern. */
  function ReplaceAll(s: string, c: char, replacement: string): string
  {
    if s == [] then [] else (if s[0] == c then replacement else [s[0]]) + ReplaceAll(s[1..], c, replacement)
  }

  /** `escapeHtml(unsafe)`: five global replaces, `&` first. */
  function EscapeHtml(unsafe: string): string
  {
    ReplaceAll(ReplaceAll(ReplaceAll(ReplaceAll(ReplaceAll(
      unsafe, '&', "&amp;"), '<', "&lt;"), '>', "&gt;"), '"', "&quot;"), '\'', "&#039;")
  }

  lemma {:induction false} ReplaceAllAppend(a: string, b: string, c: char, replacement: string)
    ensures ReplaceAll(a + b, c, replacement) == ReplaceAll(a, c, replacement) + ReplaceAll(b, c, replacement)
  {
    if a == [] {
      assert a + b == b;
    } else {
      assert (a + b)[0] == a[0] && (a + b)[1..] == a[1..] + b;
      ReplaceAllAppend(a[1..], b, c, replacement);
    }
  }

  lemma EscapeHtmlAppend(a: string, b: string)
    ensures EscapeHtml(a + b) == EscapeHtml(a) + EscapeHtml(b)
  {
    var a1, b1 := ReplaceAll(a, '&', "&amp;"), ReplaceAll(b, '&', "&amp;");
    ReplaceAllAppend(a, b, '&', "&amp;");
    var a2, b2 := ReplaceAll(a1, '<', "&lt;"), ReplaceAll(b1, '<', "&lt;");
    ReplaceAllAppend(a1, b1, '<', "&lt;");
    var a3, b3 := ReplaceAll(a2, '>', "&gt;"), ReplaceAll(b2, '>', "&gt;");
    ReplaceAllAppend(a2, b2, '>', "&gt;");
    var a4, b4 := ReplaceAll(a3, '"', "&quot;"), ReplaceAll(b3, '"', "&quot;");
    ReplaceAllAppend(a3, b3, '"', "&quot;");
    ReplaceAllAppend(a4, b4, '\'', "&#039;");
  }

  /** Replacing a character that does not occur changes nothing. */
  lemma {:induction false} ReplaceAllAbsent(s: string, c: char, replacement: string)
    requires forall i :: 0 <= i < |s| ==> s[i] != c
    ensures ReplaceAll(s, c, replacement) == s
  {
    if s != [] {
      ReplaceAllAbsent(s[1..], c, replacement);
      assert s == [s[0]] + s[1..];
    }
  }

  lemma ReplaceAllSingle(x: char, c: char, replacement: string)
    ensures ReplaceAll([x], c, replacement) == if x == c then replacement else [x]
  {
    assert [x][1..] == [];
  }

  lemma EscapeHtmlPlain(c: char)
    requires !IsSpecial(c)
    ensures EscapeHtml([c]) == [c]
  {
    ReplaceAllSingle(c, '&', "&amp;");
    ReplaceAllSingle(c, '<', "&lt;");
    ReplaceAllSingle(c, '>', "&gt;");
    ReplaceAllSingle(c, '"', "&quot;");
    ReplaceAllSingle(c, '\'', "&#039;");
  }

  /** The last four passes leave a string without markup characters unchanged. */
  lemma MarkupPassesKeep(s: string)
    requires forall i :: 0 <= i < |s| ==> !IsMarkup(s[i])
    ensures ReplaceAll(ReplaceAll(ReplaceAll(ReplaceAll(
      s, '<', "&lt;"), '>', "&gt;"), '"', "&quot;"), '\'', "&#039;") == s
  {
    ReplaceAllAbsent(s, '<', "&lt;");
    ReplaceAllAbsent(s, '>', "&gt;");
    ReplaceAllAbsent(s, '"', "&quot;");
    ReplaceAllAbsent(s, '\'', "&#039;");
  }

  lemma EscapeHtmlAmp(c: char)
    requires c == '&'
    ensures EscapeHtml([c]) == EscapeChar(c)
  {
    ReplaceAllSingle(c, '&', "&amp;");
    MarkupPassesKeep(EscapeChar(c));
  }

  lemma EscapeHtmlLt(c: char)
    requires c == '<'
    ensures EscapeHtml([c]) == EscapeChar(c)
  {
    var e := EscapeChar(c);
    ReplaceAllSingle(c, '&', "&amp;");
    ReplaceAllSingle(c, '<', "&lt;");
    ReplaceAllAbsent(e, '>', "&gt;");
    ReplaceAllAbsent(e, '"', "&quot;");
    ReplaceAllAbsent(e, '\'', "&#039;");
  }

  lemma EscapeHtmlGt(c: char)
    requires c == '>'
    ensures EscapeHtml([c]) == EscapeChar(c)
  {
    var e := EscapeChar(c);
    ReplaceAllSingle(c, '&', "&amp;");
    ReplaceAllSingle(c, '<', "&lt;");
    ReplaceAllSingle(c, '>', "&gt;");
    ReplaceAllAbsent(e, '"', "&quot;");
    ReplaceAllAbsent(e, '\'', "&#039;");
  }

  lemma EscapeHtmlQuot(c: char)
    requires c == '"'
    ensures EscapeHtml([c]) == EscapeChar(c)
  {
    var e := EscapeChar(c);
    ReplaceAllSingle(c, '&', "&amp;");
    ReplaceAllSingle(c, '<', "&lt;");
    ReplaceAllSingle(c, '>', "&gt;");
    ReplaceAllSingle(c, '"', "&quot;");
    ReplaceAllAbsent(e, '\'', "&#039;");
  }

  lemma EscapeHtmlApos(c: char)
    requires c == '\''
    ensures EscapeHtml([c]) == EscapeChar(c)
  {
    ReplaceAllSingle(c, '&', "&amp;");
    ReplaceAllSingle(c, '<', "&lt;");
    ReplaceAllSingle(c, '>', "&gt;");
    ReplaceAllSingle(c, '"', "&quot;");
    ReplaceAllSingle(c, '\'', "&#039;");
  }

  /** On a single character the five passes write exactly that character's entity. */
  lemma EscapeHtmlChar(c: char)
    ensures EscapeHtml([c]) == EscapeChar(c)
  {
    if c == '&' {
      EscapeHtmlAmp(c);
    } else if c == '<' {
      EscapeHtmlLt(c);
    } else if c == '>' {
      EscapeHtmlGt(c);
    } else if c == '"' {
      EscapeHtmlQuot(c);
    } else if c == '\'' {
      EscapeHtmlApos(c);
    } else {
      EscapeHtmlPlain(c);
    }
  }

  /**
   * Because `&` is replaced first, no entity written by a later replace is
   * escaped again: the five passes escape each character exactly once.
   */
  lemma {:induction false} EscapeHtmlIsPerCharacter(s: string)
    ensures EscapeHtml(s) == Escaped(s)
  {
    if s != [] {
      assert s == [s[0]] + s[1..];
      EscapeHtmlAppend([s[0]], s[1..]);
      EscapeHtmlChar(s[0]);
      EscapeHtmlIsPerCharacter(s[1..]);
    }
  }

  /** The escaped text has no raw `<`, `>`, `"` or `'`. */
  lemma {:induction false} EscapedHasNoMarkup(s: string)
    ensures forall i :: 0 <= i < |Escaped(s)| ==> !IsMarkup(Escaped(s)[i])
  {
    if s != [] {
      EscapedHasNoMarkup(s[1..]);
      var e, rest := EscapeChar(s[0]), Escaped(s[1..]);
      forall i | 0 <= i < |e + rest| ensures !IsMarkup((e + rest)[i]) {
        if i >= |e| {
          assert (e + rest)[i] == rest[i - |e|];
        }
      }
    }
  }

  /** A string without any of the five characters is left as it is. */
  lemma {:induction false} EscapedWithoutSpecials(s: string)
    requires forall i :: 0 <= i < |s| ==> !IsSpecial(s[i])
    ensures Escaped(s) == s
  {
    if s != [] {
      EscapedWithoutSpecials(s[1..]);
      assert s == [s[0]] + s[1..];
    }
  }

  predicate StartsWith(t: string, prefix: string)
  {
    |prefix| <= |t| && t[..|prefix|] == prefix
  }

  /**
   * What the HTML parser gives back as `textContent` for escaped text: the five
   * entities decoded, everything else kept.
   */
  function Unescape(t: string): string
    decreases |t|
  {
    if t == [] then []
    else if StartsWith(t, "&amp;") then "&" + Unescape(t[5..])
    else if StartsWith(t, "&lt;") then "<" + Unescape(t[4..])
    else if StartsWith(t, "&gt;") then ">" + Unescape(t[4..])
    else if StartsWith(t, "&quot;") then "\"" + Unescape(t[6..])
    else if StartsWith(t, "&#039;") then "'" + Unescape(t[6..])
    else [t[0]] + Unescape(t[1..])
  }

  lemma UnescapeAmp(rest: string)
    ensures Unescape("&amp;" + rest) == "&" + Unescape(rest)
  {
    var t := "&amp;" + rest;
    assert t[..5] == "&amp;" && t[5..] == rest;
  }

  lemma UnescapeLt(rest: string)
    ensures Unescape("&lt;" + rest) == "<" + Unescape(rest)
  {
    var t := "&lt;" + rest;
    assert t[1] == 'l' && !StartsWith(t, "&amp;");
    assert t[..4] == "&lt;" && t[4..] == rest;
  }

  lemma UnescapeGt(rest: string)
    ensures Unescape("&gt;" + rest) == ">" + Unescape(rest)
  {
    var t := "&gt;" + rest;
    assert t[1] == 'g' && !StartsWith(t, "&amp;") && !StartsWith(t, "&lt;");
    assert t[..4] == "&gt;" && t[4..] == rest;
  }

  lemma UnescapeQuot(rest: string)
    ensures Unescape("&quot;" + rest) == "\"" + Unescape(rest)
  {
    var t := "&quot;" + rest;
    assert t[1] == 'q';
    assert !StartsWith(t, "&amp;") && !StartsWith(t, "&lt;") && !StartsWith(t, "&gt;");
    assert t[..6] == "&quot;" && t[6..] == rest;
  }

  lemma UnescapeApos(rest: string)
    ensures Unescape("&#039;" + rest) == "'" + Unescape(rest)
  {
    var t := "&#039;" + rest;
    assert t[1] == '#';
    assert !StartsWith(t, "&amp;") && !StartsWith(t, "&lt;") && !StartsWith(t, "&gt;");
    assert !StartsWith(t, "&quot;");
    assert t[..6] == "&#039;" && t[6..] == rest;
  }

  lemma UnescapePlain(c: char, rest: string)
    requires c != '&'
    ensures Unescape([c] + rest) == [c] + Unescape(rest)
  {
    var t := [c] + rest;
    assert t[0] == c && t[1..] == rest;
    NotEntityStart(t, "&amp;");
    NotEntityStart(t, "&lt;");
    NotEntityStart(t, "&gt;");
    NotEntityStart(t, "&quot;");
    NotEntityStart(t, "&#039;");
  }

  lemma NotEntityStart(t: string, entity: string)
    requires |t| > 0 && |entity| > 0 && t[0] != entity[0]
    ensures !StartsWith(t, entity)
  {
    if |entity| <= |t| {
      assert t[..|entity|][0] == t[0];
    }
  }

  /** Decoding one escaped character in front of any text yields that character first. */
  lemma UnescapeEscapeChar(c: char, rest: string)
    ensures Unescape(EscapeChar(c) + rest) == [c] + Unescape(rest)
  {
    if c == '&' {
      UnescapeAmp(rest);
    } else if c == '<' {
      UnescapeLt(rest);
    } else if c == '>' {
      UnescapeGt(rest);
    } else if c == '"' {
      UnescapeQuot(rest);
    } else if c == '\'' {
      UnescapeApos(rest);
    } else {
      UnescapePlain(c, rest);
    }
  }

  /**
   * Round trip: the page shows exactly the text that was escaped, so a card's
   * source text read back through `textContent` is the original string.
   */
  lemma {:induction false} EscapeHtmlRoundTrip(s: string)
    ensures Unescape(EscapeHtml(s)) == s
  {
    EscapeHtmlIsPerCharacter(s);
    EscapedRoundTrip(s);
  }

  lemma {:induction false} EscapedRoundTrip(s: string)
    ensures Unescape(Escaped(s)) == s
  {
    if s != [] {
      UnescapeEscapeChar(s[0], Escaped(s[1..]));
      EscapedRoundTrip(s[1..]);
      assert s == [s[0]] + s[1..];
    }
  }

  /** `escapeHtml` output, whatever the input, is safe to place inside markup. */
  lemma EscapeHtmlHasNoMarkup(s: string)
    ensures forall i :: 0 <= i < |EscapeHtml(s)| ==> !IsMarkup(EscapeHtml(s)[i])
  {
    EscapeHtmlIsPerCharacter(s);
    EscapedHasNoMarkup(s);
  }

  /** `escapeHtml` is the identity on strings without `&`, `<`, `>`, `"` and `'`. */
  lemma EscapeHtmlWithoutSpecials(s: string)
    requires forall i :: 0 <= i < |s| ==> !IsSpecial(s[i])
    ensures EscapeHtml(s) == s
  {
    EscapeHtmlIsPerCharacter(s);
    EscapedWithoutSpecials(s);
  }

  // ---------------------------------------------------------------------------
  // The word-mode check /^[a-zA-Z-]+$/

  predicate IsWordChar(c: char)
  {
    ('a' <= c <= 'z') || ('A' <= c <= 'Z') || c == '-'
  }

  /** `/^[a-zA-Z-]+$/.test(text)`: one or more ASCII letters or hyphens, nothing else. */
  predicate IsWord(text: string)
  {
    |text| > 0 && forall i :: 0 <= i < |text| ==> IsWordChar(text[i])
  }

  lemma WordExamples(hyphenated: string, spaced: string, digit: string)
    requires hyphenated == "hello-world" && spaced == "hello world" && digit == "hello2"
    ensures IsWord(hyphenated) && !IsWord(spaced) && !IsWord(digit)
  {
    assert spaced[5] == ' ';
    assert digit[5] == '2';
  }

  /** A word is already trimmed: it has no whitespace at all. */
  lemma WordHasNoSpace(text: string)
    requires IsWord(text)
    ensures forall i :: 0 <= i < |text| ==> !Text.IsSpace(text[i])
  {
  }

  // ---------------------------------------------------------------------------
  // Session state

  const CONTROL: string := "Control"
  const ALT: string := "Alt"
  const SYNC: string := "sync"
  const FAILURE_PREFIX: string := "Translation failed: "

  type ElementId = nat

  /**
   * An element under the cursor or clicked: its identity, whether it lies inside
   * a card (`closest('[data-itf-card]')`), whether its only child is a text node,
   * its `textContent` and its parent's `textContent`.
   */
  datatype Element = Element(id: ElementId, inCard: bool, singleTextChild: bool,
                             textContent: string, parentText: string)

  /** `data-itf-state`. */
  datatype CardState = Loading | Done | Closing

  /** The card's `.itf-body`: the spinner, a result, or a retryable error (escaped markup text). */
  datatype CardBody = Spinner | ResultText(html: string) | ErrorText(html: string)

  /** A floating card: `data-order`, `data-itf-state`, the source text and the body. */
  datatype Card = Card(order: nat, state: CardState, source: string, body: CardBody)

  /**
   * The globals `isFeatureEnabled`, `ctrlPressed`, `altPressed`, `lastHoveredElement`
   * and `cardOrder`; the elements carrying `itf-highlight`; the cards on the page,
   * keyed by `data-itf-card`; the messages sent to the worker, oldest first; and
   * the cards whose 10 ms (`renderFloatingCard`) and 300 ms (`removeCard`)
   * callbacks are still pending.
   */
  datatype Session = Session(enabled: bool, ctrl: bool, alt: bool,
                             lastHovered: Option<ElementId>, highlighted: set<ElementId>,
                             cardOrder: nat, cards: map<string, Card>, sent: seq<Request>,
                             pendingDone: set<string>, pendingRemove: set<string>)

  /** The state when the script is injected. */
  function Initial(): Session
  {
    Session(false, false, false, None, {}, 0, map[], [], {}, {})
  }

  /**
   * At most one element is highlighted, and it is `lastHoveredElement`; live cards
   * have distinct orders, all below the counter.
   */
  ghost predicate Inv(s: Session)
  {
    && s.highlighted == (if s.lastHovered.Some? then {s.lastHovered.value} else {})
    && (forall id :: id in s.cards ==> s.cards[id].order < s.cardOrder)
    && (forall a, b :: a in s.cards && b in s.cards && a != b ==> s.cards[a].order != s.cards[b].order)
  }

  // ---------------------------------------------------------------------------
  // Transitions

  /** `removeHighlight()`. */
  function RemoveHighlight(s: Session): Session
  {
    if s.lastHovered.Some? then
      s.(highlighted := s.highlighted - {s.lastHovered.value}, lastHovered := None)
    else s
  }

  /** `handleHighlight(e)`, given the element under the cursor (or none). */
  function HandleHighlight(s: Session, target: Option<Element>): Session
  {
    if target.None? then RemoveHighlight(s)
    else
      var t := target.value;
      if t.inCard || t.id in s.highlighted then s
      else if t.singleTextChild then
        if s.lastHovered == Some(t.id) then s
        else
          var cleared := RemoveHighlight(s);
          if Text.Trim(t.textContent) != [] then
            cleared.(highlighted := cleared.highlighted + {t.id}, lastHovered := Some(t.id))
          else cleared
      else RemoveHighlight(s)
  }

  /** `renderFloatingCard({ id, src, state: 'loading' })`, which also schedules the 10 ms callback. */
  function RenderFloatingCard(s: Session, id: string, src: string): Session
  {
    s.(cards := s.cards[id := Card(s.cardOrder, Loading, src, Spinner)], cardOrder := s.cardOrder + 1,
       pendingDone := s.pendingDone + {id})
  }

  /** The context sent with a click: the parent's trimmed text, or the text itself. */
  function ParentContext(t: Element, text: string): (context: string)
    ensures context != [] || text == []
  {
    var parent := Text.Trim(t.parentText);
    if parent != [] then parent else text
  }

  /**
   * `handleTranslationTrigger(target)`, where `id` is the freshly generated
   * `itf-card-…` identifier.
   */
  function HandleTranslationTrigger(s: Session, t: Element, id: string): Session
  {
    var text := Text.Trim(t.textContent);
    if text == [] then s
    else if s.ctrl && !IsWord(text) then s
    else
      var context := if s.ctrl then ParentContext(t, text) else text;
      var rendered := RenderFloatingCard(s, id, text);
      RemoveHighlight(rendered.(sent := rendered.sent + [Request(TRANSLATE, id, text, context)]))
  }

  /** The body a reply puts in its card. */
  function ReplyBody(outcome: Result<string, string>): CardBody
  {
    match outcome
    case Ok(result) => ResultText(EscapeHtml(result))
    case Err(error) => ErrorText(FAILURE_PREFIX + EscapeHtml(error))
  }

  /** `updateFloatingCard(msg)`: only the body of the card with that id changes. */
  function UpdateFloatingCard(s: Session, reply: Reply): Session
  {
    if reply.id !in s.cards then s
    else s.(cards := s.cards[reply.id := s.cards[reply.id].(body := ReplyBody(reply.outcome))])
  }

  /**
   * The 10 ms timer set by `renderFloatingCard`: the card's state becomes `done`
   * (even when it is already `closing`). Without a pending timer nothing fires.
   */
  function MarkDone(s: Session, id: string): Session
  {
    if id !in s.pendingDone then s
    else
      var fired := s.(pendingDone := s.pendingDone - {id});
      if id !in s.cards then fired
      else fired.(cards := s.cards[id := s.cards[id].(state := Done)])
  }

  /** A click on a card's error text: back to the spinner, and the request is sent again. */
  function Retry(s: Session, id: string): Session
  {
    if id !in s.cards || !s.cards[id].body.ErrorText? then s
    else
      var card := s.cards[id];
      s.(cards := s.cards[id := card.(body := Spinner)],
         sent := s.sent + [Request(TRANSLATE, id, card.source, card.source)])
  }

  /**
   * `removeCard(card)`, from the close button of a card on the page: the card
   * enters `closing` and its 300 ms callback is scheduled.
   */
  function RemoveCard(s: Session, id: string): Session
  {
    if id !in s.cards then s
    else s.(cards := s.cards[id := s.cards[id].(state := Closing)], pendingRemove := s.pendingRemove + {id})
  }

  /** The 300 ms timer set by `removeCard`: the card leaves the page. Without a pending timer nothing fires. */
  function DropCard(s: Session, id: string): Session
  {
    if id !in s.pendingRemove then s
    else s.(cards := s.cards - {id}, pendingRemove := s.pendingRemove - {id})
  }

  /** Everything the script reacts to. */
  datatype Event =
    | SettingLoaded(value: bool)                           // chrome.storage.sync.get callback
    | SettingChanged(namespace: string, change: Option<bool>) // storage.onChanged; Some(newValue) when isFeatureEnabled changed
    | KeyDown(key: string, ctrlKey: bool, altKey: bool)
    | KeyUp(key: string)
    | MouseMove(target: Option<Element>)                   // the element under the cursor, if any
    | Click(target: Option<Element>, freshId: string)
    | Message(reply: Reply)                                // runtime.onMessage
    | DoneTimer(id: string)
    | RetryClick(id: string)
    | CloseClick(id: string)
    | RemoveTimer(id: string)

  predicate IsModifier(key: string)
  {
    key == CONTROL || key == ALT
  }

  /** The handler for `e`. */
  function Step(s: Session, e: Event): Session
  {
    match e
    case SettingLoaded(value) => s.(enabled := value)
    case SettingChanged(namespace, change) =>
      if namespace == SYNC && change.Some? then
        if change.value then s.(enabled := true) else RemoveHighlight(s.(enabled := false))
      else s
    case KeyDown(key, ctrlKey, altKey) =>
      if !s.enabled || !IsModifier(key) then s
      else if (ctrlKey && s.ctrl) || (altKey && s.alt) then s
      else s.(ctrl := ctrlKey, alt := altKey)
    case KeyUp(key) =>
      if !s.enabled || !IsModifier(key) then s
      else RemoveHighlight(s.(ctrl := false, alt := false))
    case MouseMove(target) =>
      if !s.enabled || (!s.ctrl && !s.alt) then s else HandleHighlight(s, target)
    case Click(target, freshId) =>
      if !s.enabled || (!s.ctrl && !s.alt) then s
      else if target.Some? && target.value.id in s.highlighted then HandleTranslationTrigger(s, target.value, freshId)
      else s
    case Message(reply) =>
      if reply.kind == TRANSLATION_RESULT && reply.id != [] then UpdateFloatingCard(s, reply) else s
    case DoneTimer(id) => MarkDone(s, id)
    case RetryClick(id) => Retry(s, id)
    case CloseClick(id) => RemoveCard(s, id)
    case RemoveTimer(id) => DropCard(s, id)
  }

  /** The state after handling `events` in order. */
  function Run(s: Session, events: seq<Event>): Session
    decreases |events|
  {
    if events == [] then s else Run(Step(s, events[0]), events[1..])
  }

  // ---------------------------------------------------------------------------
  // Properties

  lemma InitialInv()
    ensures Inv(Initial())
  {
  }

  /** At most one element carries the highlight class. */
  lemma AtMostOneHighlighted(s: Session)
    requires Inv(s)
    ensures |s.highlighted| <= 1
    ensures s.lastHovered.Some? ==> s.highlighted == {s.lastHovered.value}
  {
  }

  /** `removeHighlight` leaves nothing highlighted and is idempotent; nothing else changes. */
  lemma RemoveHighlightClears(s: Session)
    requires Inv(s)
    ensures RemoveHighlight(s).lastHovered == None && RemoveHighlight(s).highlighted == {}
    ensures RemoveHighlight(RemoveHighlight(s)) == RemoveHighlight(s)
    ensures RemoveHighlight(s).(highlighted := s.highlighted, lastHovered := s.lastHovered) == s
  {
  }

  /** A new card takes the counter as its order, which exceeds every other live card's. */
  lemma RenderKeepsOrders(s: Session, id: string, src: string)
    requires Inv(s)
    ensures var r := RenderFloatingCard(s, id, src);
      && Inv(r)
      && r.cards[id] == Card(s.cardOrder, Loading, src, Spinner)
      && (forall other :: other in r.cards && other != id ==> r.cards[other].order < r.cards[id].order)
  {
  }

  lemma HandleHighlightInv(s: Session, target: Option<Element>)
    requires Inv(s)
    ensures Inv(HandleHighlight(s, target))
  {
  }

  lemma TriggerInv(s: Session, t: Element, id: string)
    requires Inv(s)
    ensures Inv(HandleTranslationTrigger(s, t, id))
  {
    var text := Text.Trim(t.textContent);
    if text != [] && !(s.ctrl && !IsWord(text)) {
      RenderKeepsOrders(s, id, text);
    }
  }

  lemma RemoveHighlightInv(s: Session)
    requires Inv(s)
    ensures Inv(RemoveHighlight(s))
  {
  }

  /** `Inv` depends only on the highlight, the counter and the cards. */
  lemma SameCardsInv(s: Session, r: Session)
    requires Inv(s)
    requires r.highlighted == s.highlighted && r.lastHovered == s.lastHovered
    requires r.cardOrder == s.cardOrder && r.cards == s.cards
    ensures Inv(r)
  {
  }

  /** Replacing one card by a card with the same order keeps `Inv`. */
  lemma ReplaceCardInv(s: Session, id: string, card: Card)
    requires Inv(s) && id in s.cards && card.order == s.cards[id].order
    ensures Inv(s.(cards := s.cards[id := card]))
  {
    var r := s.(cards := s.cards[id := card]);
    forall a, b | a in r.cards && b in r.cards && a != b
      ensures r.cards[a].order != r.cards[b].order
    {
      assert r.cards[a].order == s.cards[a].order;
      assert r.cards[b].order == s.cards[b].order;
    }
  }

  lemma UpdateFloatingCardInv(s: Session, reply: Reply)
    requires Inv(s)
    ensures Inv(UpdateFloatingCard(s, reply))
  {
    if reply.id in s.cards {
      ReplaceCardInv(s, reply.id, s.cards[reply.id].(body := ReplyBody(reply.outcome)));
    }
  }

  lemma MarkDoneInv(s: Session, id: string)
    requires Inv(s)
    ensures Inv(MarkDone(s, id))
  {
    if id in s.pendingDone {
      var fired := s.(pendingDone := s.pendingDone - {id});
      SameCardsInv(s, fired);
      if id in s.cards {
        ReplaceCardInv(fired, id, s.cards[id].(state := Done));
      }
    }
  }

  lemma RetryInv(s: Session, id: string)
    requires Inv(s)
    ensures Inv(Retry(s, id))
  {
    if id in s.cards && s.cards[id].body.ErrorText? {
      ReplaceCardInv(s, id, s.cards[id].(body := Spinner));
      var r := s.(cards := s.cards[id := s.cards[id].(body := Spinner)]);
      assert Retry(s, id) == r.(sent := s.sent + [Request(TRANSLATE, id, s.cards[id].source, s.cards[id].source)]);
    }
  }

  lemma RemoveCardInv(s: Session, id: string)
    requires Inv(s)
    ensures Inv(RemoveCard(s, id))
  {
    if id in s.cards {
      ReplaceCardInv(s, id, s.cards[id].(state := Closing));
      SameCardsInv(s.(cards := s.cards[id := s.cards[id].(state := Closing)]), RemoveCard(s, id));
    }
  }

  lemma DropCardInv(s: Session, id: string)
    requires Inv(s)
    ensures Inv(DropCard(s, id))
  {
  }

  /** The settings and modifier-key handlers keep the invariant. */
  lemma SettingsAndKeysInv(s: Session, e: Event)
    requires Inv(s) && (e.SettingLoaded? || e.SettingChanged? || e.KeyDown? || e.KeyUp?)
    ensures Inv(Step(s, e))
  {
    match e
    case SettingLoaded(value) =>
      SameCardsInv(s, Step(s, e));
    case SettingChanged(namespace, change) =>
      if namespace == SYNC && change.Some? && !change.value {
        SameCardsInv(s, s.(enabled := false));
        RemoveHighlightInv(s.(enabled := false));
      } else {
        SameCardsInv(s, Step(s, e));
      }
    case KeyDown(key, ctrlKey, altKey) =>
      SameCardsInv(s, Step(s, e));
    case KeyUp(key) =>
      SameCardsInv(s, s.(ctrl := false, alt := false));
      RemoveHighlightInv(s.(ctrl := false, alt := false));
  }

  /** The handlers of a card's reply, timers and buttons keep the invariant. */
  lemma CardEventsInv(s: Session, e: Event)
    requires Inv(s) && (e.Message? || e.DoneTimer? || e.RetryClick? || e.CloseClick? || e.RemoveTimer?)
    ensures Inv(Step(s, e))
  {
    match e
    case Message(reply) => UpdateFloatingCardInv(s, reply);
    case DoneTimer(id) => MarkDoneInv(s, id);
    case RetryClick(id) => RetryInv(s, id);
    case CloseClick(id) => RemoveCardInv(s, id);
    case RemoveTimer(id) => DropCardInv(s, id);
  }

  /** Every handler keeps the invariant. */
  lemma StepInv(s: Session, e: Event)
    requires Inv(s)
    ensures Inv(Step(s, e))
  {
    if e.MouseMove? {
      HandleHighlightInv(s, e.target);
    } else if e.Click? {
      if e.target.Some? { TriggerInv(s, e.target.value, e.freshId); }
    } else if e.Message? || e.DoneTimer? || e.RetryClick? || e.CloseClick? || e.RemoveTimer? {
      CardEventsInv(s, e);
    } else {
      SettingsAndKeysInv(s, e);
    }
  }

  /** The invariant holds after any sequence of events from the initial state. */
  lemma {:induction false} RunInv(s: Session, events: seq<Event>)
    requires Inv(s)
    ensures Inv(Run(s, events))
    decreases |events|
  {
    if events != [] {
      StepInv(s, events[0]);
      RunInv(Step(s, events[0]), events[1..]);
    }
  }

  /** Reachable states satisfy the invariant: at most one highlight, distinct card orders. */
  lemma ReachableInv(events: seq<Event>)
    ensures Inv(Run(Initial(), events))
    ensures |Run(Initial(), events).highlighted| <= 1
  {
    InitialInv();
    RunInv(Initial(), events);
    AtMostOneHighlighted(Run(Initial(), events));
  }

  /** While the feature is off, keys, mouse moves and clicks change nothing. */
  lemma DisabledIgnoresInput(s: Session, e: Event)
    requires !s.enabled
    requires e.KeyDown? || e.KeyUp? || e.MouseMove? || e.Click?
    ensures Step(s, e) == s
  {
  }

  /** Turning the feature off from the popup clears the highlight. */
  lemma DisablingClearsHighlight(s: Session)
    requires Inv(s)
    ensures var r := Step(s, SettingChanged(SYNC, Some(false)));
      !r.enabled && r.lastHovered == None && r.highlighted == {}
  {
  }

  /** Releasing Ctrl or Alt drops both modifiers and clears the highlight. */
  lemma KeyUpResets(s: Session, key: string)
    requires Inv(s) && s.enabled && IsModifier(key)
    ensures var r := Step(s, KeyUp(key));
      !r.ctrl && !r.alt && r.lastHovered == None && r.highlighted == {}
  {
  }

  /** Auto-repeat of a held modifier changes nothing. */
  lemma KeyRepeatIgnored(s: Session, key: string, ctrlKey: bool, altKey: bool)
    requires (ctrlKey && s.ctrl) || (altKey && s.alt)
    ensures Step(s, KeyDown(key, ctrlKey, altKey)) == s
  {
  }

  /**
   * An element that was not highlighted becomes highlighted exactly when it is
   * outside every card, has a single text child, and has non-blank text; it is
   * then the only highlighted element.
   */
  lemma HighlightIff(s: Session, t: Element)
    requires Inv(s) && t.id !in s.highlighted
    ensures var r := HandleHighlight(s, Some(t));
      && (t.id in r.highlighted <==> !t.inCard && t.singleTextChild && Text.Trim(t.textContent) != [])
      && (t.id in r.highlighted ==> r.highlighted == {t.id} && r.lastHovered == Some(t.id))
  {
  }

  /** Any other element, or none, clears the highlight (our own card UI is left alone). */
  lemma OtherShapesClear(s: Session, target: Option<Element>)
    requires Inv(s)
    requires target.None? || (!target.value.inCard && target.value.id !in s.highlighted
                              && (!target.value.singleTextChild || Text.Trim(target.value.textContent) == []))
    ensures HandleHighlight(s, target).highlighted == {} && HandleHighlight(s, target).lastHovered == None
  {
  }

  /** Clicking an element with blank text does nothing. */
  lemma BlankClickIgnored(s: Session, t: Element, id: string)
    requires Text.Trim(t.textContent) == []
    ensures HandleTranslationTrigger(s, t, id) == s
  {
  }

  /** In word mode (Ctrl) text that is not a single word is refused: no card and no message. */
  lemma WordModeRejects(s: Session, t: Element, id: string)
    requires s.ctrl && !IsWord(Text.Trim(t.textContent))
    ensures HandleTranslationTrigger(s, t, id) == s
  {
  }

  /**
   * An accepted click renders one loading card under the new id with the next
   * order, sends one `translate` request whose context is the parent's text in
   * word mode and the text itself in sentence mode, and clears the highlight.
   */
  lemma TriggerSends(s: Session, t: Element, id: string)
    requires Inv(s)
    requires Text.Trim(t.textContent) != [] && (s.ctrl ==> IsWord(Text.Trim(t.textContent)))
    ensures var text := Text.Trim(t.textContent);
      var r := HandleTranslationTrigger(s, t, id);
      && r.sent == s.sent + [Request(TRANSLATE, id, text, if s.ctrl then ParentContext(t, text) else text)]
      && r.sent[|s.sent|].context != []
      && r.cards == s.cards[id := Card(s.cardOrder, Loading, text, Spinner)]
      && r.cardOrder == s.cardOrder + 1
      && r.highlighted == {} && r.lastHovered == None
  {
  }

  /** A reply of another type, with an empty id, or for no live card changes nothing. */
  lemma UnmatchedMessageIgnored(s: Session, reply: Reply)
    requires reply.kind != TRANSLATION_RESULT || reply.id == [] || reply.id !in s.cards
    ensures Step(s, Message(reply)) == s
  {
  }

  /** A reply changes the body of its own card only: order, state and source stay. */
  lemma ReplyChangesOnlyBody(s: Session, reply: Reply)
    requires reply.kind == TRANSLATION_RESULT && reply.id != [] && reply.id in s.cards
    ensures var r := Step(s, Message(reply));
      && r.cards.Keys == s.cards.Keys
      && r.cards[reply.id] == s.cards[reply.id].(body := ReplyBody(reply.outcome))
      && (forall other :: other in s.cards && other != reply.id ==> r.cards[other] == s.cards[other])
      && r.(cards := s.cards) == s
  {
  }

  /** Retrying sends the same id again, with the card's source as both text and context. */
  lemma RetryResendsSource(s: Session, id: string)
    requires id in s.cards && s.cards[id].body.ErrorText?
    ensures var r := Step(s, RetryClick(id));
      && r.sent == s.sent + [Request(TRANSLATE, id, s.cards[id].source, s.cards[id].source)]
      && r.cards[id] == s.cards[id].(body := Spinner)
  {
  }

  /** Without an error on show there is nothing to click: retry changes nothing. */
  lemma RetryNeedsError(s: Session, id: string)
    requires id !in s.cards || !s.cards[id].body.ErrorText?
    ensures Step(s, RetryClick(id)) == s
  {
  }

  /**
   * Card lifecycle: a card is rendered `loading` with its 10 ms timer pending, the
   * timer makes it `done`, closing marks it `closing` and schedules the 300 ms
   * timer, and that timer removes it, once.
   */
  lemma CardLifecycle(s: Session, id: string, src: string)
    ensures var r := RenderFloatingCard(s, id, src);
      r.cards[id].state == Loading && id in r.pendingDone
    ensures var d := Step(RenderFloatingCard(s, id, src), DoneTimer(id));
      d.cards[id].state == Done && id !in d.pendingDone
    ensures var c := Step(Step(RenderFloatingCard(s, id, src), DoneTimer(id)), CloseClick(id));
      c.cards[id].state == Closing && id in c.pendingRemove
    ensures var g := Step(Step(Step(RenderFloatingCard(s, id, src), DoneTimer(id)), CloseClick(id)), RemoveTimer(id));
      id !in g.cards && id !in g.pendingRemove && Step(g, RemoveTimer(id)) == g
  {
  }

  /** A timer that was never scheduled does nothing: no `done` before a render, no removal before a close. */
  lemma UnscheduledTimersIgnored(s: Session, id: string)
    ensures id !in s.pendingDone ==> Step(s, DoneTimer(id)) == s
    ensures id !in s.pendingRemove ==> Step(s, RemoveTimer(id)) == s
  {
  }

  /** The only event that takes a card off the page is the 300 ms timer scheduled for it. */
  lemma CardLeavesOnlyByRemoveTimer(s: Session, e: Event, id: string)
    requires id in s.cards && id !in Step(s, e).cards
    ensures e == RemoveTimer(id) && id in s.pendingRemove
  {
  }

  /** The only event that schedules a card's removal is a click on that card's close button. */
  lemma RemovalScheduledOnlyByClose(s: Session, e: Event, id: string)
    requires id !in s.pendingRemove && id in Step(s, e).pendingRemove
    ensures e == CloseClick(id) && id in s.cards
  {
  }

  /** A card that leaves the page during a run met a removal timer on the way. */
  lemma {:induction false} RemovalNeedsTimer(s: Session, events: seq<Event>, id: string)
    requires id in s.cards && id !in Run(s, events).cards
    ensures exists j :: 0 <= j < |events| && events[j] == RemoveTimer(id)
    decreases |events|
  {
    assert events != [];
    var next := Step(s, events[0]);
    if id !in next.cards {
      CardLeavesOnlyByRemoveTimer(s, events[0], id);
    } else {
      RemovalNeedsTimer(next, events[1..], id);
      var j :| 0 <= j < |events[1..]| && events[1..][j] == RemoveTimer(id);
      assert events[j + 1] == RemoveTimer(id);
    }
  }

  /**
   * A card on the page with no removal scheduled leaves it during a run only
   * after a click on its close button, followed later by the removal timer.
   */
  lemma {:induction false} RemovalNeedsClose(s: Session, events: seq<Event>, id: string)
    requires id in s.cards && id !in s.pendingRemove && id !in Run(s, events).cards
    ensures exists i, j :: 0 <= i < j < |events| && events[i] == CloseClick(id) && events[j] == RemoveTimer(id)
    decreases |events|
  {
    assert events != [];
    var next := Step(s, events[0]);
    if id !in next.cards {
      CardLeavesOnlyByRemoveTimer(s, events[0], id);
      assert false;
    } else if id in next.pendingRemove {
      RemovalScheduledOnlyByClose(s, events[0], id);
      RemovalNeedsTimer(next, events[1..], id);
      var j :| 0 <= j < |events[1..]| && events[1..][j] == RemoveTimer(id);
      assert events[0] == CloseClick(id) && events[j + 1] == RemoveTimer(id);
    } else {
      RemovalNeedsClose(next, events[1..], id);
      var i, j :| 0 <= i < j < |events[1..]| && events[1..][i] == CloseClick(id) && events[1..][j] == RemoveTimer(id);
      assert events[i + 1] == CloseClick(id) && events[j + 1] == RemoveTimer(id);
    }
  }
}

/**
 * The content script's globals and page state as one object; each handler
 * updates its fields in place, as the script's listeners do.
 */
module ContentPage {
  import opened Wrappers
  import opened Messages
  import Text
  import CS = ContentScript

  class Page {
    var enabled: bool
    var ctrl: bool
    var alt: bool
    var lastHovered: Option<CS.ElementId>
    var highlighted: set<CS.ElementId>
    var cardOrder: nat
    var cards: map<string, CS.Card>
    var sent: seq<Request>
    var pendingDone: set<string>
    var pendingRemove: set<string>

    /** The abstract session these fields hold. */
    function Model(): CS.Session
      reads this
    {
      CS.Session(enabled, ctrl, alt, lastHovered, highlighted, cardOrder, cards, sent, pendingDone, pendingRemove)
    }

    /** The page invariant: at most one highlight, distinct card orders below the counter. */
    ghost predicate Valid()
      reads this
    {
      CS.Inv(Model())
    }

    constructor ()
      ensures Model() == CS.Initial() && Valid()
    {
      enabled, ctrl, alt := false, false, false;
      lastHovered, highlighted := None, {};
      cardOrder, cards, sent := 0, map[], [];
      pendingDone, pendingRemove := {}, {};
    }

    method RemoveHighlight()
      modifies this
      ensures Model() == CS.RemoveHighlight(old(Model()))
    {
      if lastHovered.Some? {
        highlighted := highlighted - {lastHovered.value};
        lastHovered := None;
      }
    }

    method OnSettingLoaded(value: bool)
      requires Valid()
      modifies this
      ensures Model() == CS.Step(old(Model()), CS.SettingLoaded(value))
      ensures Valid()
    {
      CS.StepInv(Model(), CS.SettingLoaded(value));
      enabled := value;
    }

    method OnSettingChanged(namespace: string, change: Option<bool>)
      requires Valid()
      modifies this
      ensures Model() == CS.Step(old(Model()), CS.SettingChanged(namespace, change))
      ensures Valid()
    {
      CS.StepInv(Model(), CS.SettingChanged(namespace, change));
      if namespace == CS.SYNC && change.Some? {
        enabled := change.value;
        if !enabled {
          RemoveHighlight();
        }
      }
    }

    method OnKeyDown(key: string, ctrlKey: bool, altKey: bool)
      requires Valid()
      modifies this
      ensures Model() == CS.Step(old(Model()), CS.KeyDown(key, ctrlKey, altKey))
      ensures Valid()
    {
      CS.StepInv(Model(), CS.KeyDown(key, ctrlKey, altKey));
      if !enabled {
        return;
      }
      if key != CS.CONTROL && key != CS.ALT {
        return;
      }
      if (ctrlKey && ctrl) || (altKey && alt) {
        return;
      }
      ctrl := ctrlKey;
      alt := altKey;
    }

    method OnKeyUp(key: string)
      requires Valid()
      modifies this
      ensures Model() == CS.Step(old(Model()), CS.KeyUp(key))
      ensures Valid()
    {
      CS.StepInv(Model(), CS.KeyUp(key));
      if !enabled || (key != CS.CONTROL && key != CS.ALT) {
        return;
      }
      ctrl := false;
      alt := false;
      RemoveHighlight();
    }

    method HandleHighlight(target: Option<CS.Element>)
      modifies this
      ensures Model() == CS.HandleHighlight(old(Model()), target)
    {
      if target.None? {
        RemoveHighlight();
        return;
      }
      var t := target.value;
      if t.inCard || t.id in highlighted {
        return;
      }
      if t.singleTextChild {
        if lastHovered == Some(t.id) {
          return;
        }
        RemoveHighlight();
        var text := Text.Trim(t.textContent);
        if text != [] {
          highlighted := highlighted + {t.id};
          lastHovered := Some(t.id);
        }
      } else {
        RemoveHighlight();
      }
    }

    method OnMouseMove(target: Option<CS.Element>)
      requires Valid()
      modifies this
      ensures Model() == CS.Step(old(Model()), CS.MouseMove(target))
      ensures Valid()
    {
      CS.StepInv(Model(), CS.MouseMove(target));
      if !enabled || (!ctrl && !alt) {
        return;
      }
      HandleHighlight(target);
    }

    method RenderFloatingCard(id: string, src: string)
      modifies this
      ensures Model() == CS.RenderFloatingCard(old(Model()), id, src)
    {
      cards := cards[id := CS.Card(cardOrder, CS.Loading, src, CS.Spinner)];
      cardOrder := cardOrder + 1;
      pendingDone := pendingDone + {id};
    }

    method HandleTranslationTrigger(t: CS.Element, id: string)
      modifies this
      ensures Model() == CS.HandleTranslationTrigger(old(Model()), t, id)
    {
      var text := Text.Trim(t.textContent);
      if text == [] {
        return;
      }
      var parent := Text.Trim(t.parentText);
      var context := if parent != [] then parent else text;
      var request: Request;
      if ctrl {
        if !CS.IsWord(text) {
          return;
        }
        request := Request(TRANSLATE, id, text, context);
      } else {
        request := Request(TRANSLATE, id, text, text);
      }
      RenderFloatingCard(id, text);
      sent := sent + [request];
      RemoveHighlight();
    }

    method OnClick(target: Option<CS.Element>, freshId: string)
      requires Valid()
      modifies this
      ensures Model() == CS.Step(old(Model()), CS.Click(target, freshId))
      ensures Valid()
    {
      CS.StepInv(Model(), CS.Click(target, freshId));
      if !enabled || (!ctrl && !alt) {
        return;
      }
      if target.Some? && target.value.id in highlighted {
        HandleTranslationTrigger(target.value, freshId);
      }
    }

    method UpdateFloatingCard(reply: Reply)
      modifies this
      ensures Model() == CS.UpdateFloatingCard(old(Model()), reply)
    {
      if reply.id !in cards {
        return;
      }
      var body := match reply.outcome
        case Ok(result) => CS.ResultText(CS.EscapeHtml(result))
        case Err(error) => CS.ErrorText(CS.FAILURE_PREFIX + CS.EscapeHtml(error));
      cards := cards[reply.id := cards[reply.id].(body := body)];
    }

    method OnMessage(reply: Reply)
      requires Valid()
      modifies this
      ensures Model() == CS.Step(old(Model()), CS.Message(reply))
      ensures Valid()
    {
      CS.StepInv(Model(), CS.Message(reply));
      if reply.kind == TRANSLATION_RESULT && reply.id != [] {
        UpdateFloatingCard(reply);
      }
    }

    method OnDoneTimer(id: string)
      requires Valid()
      modifies this
      ensures Model() == CS.Step(old(Model()), CS.DoneTimer(id))
      ensures Valid()
    {
      CS.StepInv(Model(), CS.DoneTimer(id));
      if id !in pendingDone {
        return;
      }
      pendingDone := pendingDone - {id};
      if id in cards {
        cards := cards[id := cards[id].(state := CS.Done)];
      }
    }

    method OnRetryClick(id: string)
      requires Valid()
      modifies this
      ensures Model() == CS.Step(old(Model()), CS.RetryClick(id))
      ensures Valid()
    {
      CS.StepInv(Model(), CS.RetryClick(id));
      if id in cards && cards[id].body.ErrorText? {
        var source := cards[id].source;
        cards := cards[id := cards[id].(body := CS.Spinner)];
        sent := sent + [Request(TRANSLATE, id, source, source)];
      }
    }

    method RemoveCard(id: string)
      requires Valid()
      modifies this
      ensures Model() == CS.Step(old(Model()), CS.CloseClick(id))
      ensures Valid()
    {
      CS.StepInv(Model(), CS.CloseClick(id));
      if id in cards {
        cards := cards[id := cards[id].(state := CS.Closing)];
        pendingRemove := pendingRemove + {id};
      }
    }

    method OnRemoveTimer(id: string)
      requires Valid()
      modifies this
      ensures Model() == CS.Step(old(Model()), CS.RemoveTimer(id))
      ensures Valid()
    {
      CS.StepInv(Model(), CS.RemoveTimer(id));
      if id in pendingRemove {
        cards := cards - {id};
        pendingRemove := pendingRemove - {id};
      }
    }
  }
}
