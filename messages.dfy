/**
 * The two messages exchanged between the content script and the service worker
 * over `chrome.runtime.sendMessage` / `chrome.tabs.sendMessage`.
 */
module Messages {
  import opened Wrappers

  /** The `type` of a translation request. */
  const TRANSLATE: string := "translate"

  /** The `type` of a translation reply. */
  const TRANSLATION_RESULT: string := "translationResult"

  /** `{ type, id, text, context }`; a missing `text` or `context` is the empty string. */
  datatype Request = Request(kind: string, id: string, text: string, context: string)

  /**
   * `{ type, id, success, result }` or `{ type, id, success, error }`:
   * `Ok(result)` stands for `success: true`, `Err(error)` for `success: false`.
   */
  datatype Reply = Reply(kind: string, id: string, outcome: Result<string, string>)
}
