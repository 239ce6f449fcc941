# Translator session state, in Dafny

This project models the session-state machine of the translator page's `App`
component (`src/App.tsx`): the fixed language table, the translate handler
(blank-text validation, the start of a request, the mapping of the request's
outcome onto the state, and the `finally` block), the swap button, the
selector and text-area change handlers, and the translate button's `disabled`
guard. It then proves what the page promises about that state.

Modules, one per concern:

- `Options` (`options.dfy`): an optional value, used for an absent property.
- `JsString` (`js_string.dfy`): ECMAScript whitespace and `String.prototype.trim`,
  written as `TrimStart` then `TrimEnd`. `Trim` is proved to return the infix
  of its argument left after all-whitespace ends are dropped, and to be empty
  exactly when the argument is blank.
- `LanguageTable` (`language_table.dfy`): the ten `{ code, name }` entries,
  the `en`/`es` defaults, and the label lookup a selector displays.
- `TranslatorState` (`translator_state.dfy`): the six-field `State` and the
  handlers, each one atomic transition. Translating is split at its `await`.
  `HandleTranslate` is the synchronous part: it validates, sets loading and
  builds the `Request`. `Complete` applies an `Outcome` to the state current
  when the request ends. The network call becomes the `Outcome` datatype:
  `Success(texts)`, `RemoteError(payloadMessage)`, `ThrownError(message)` and
  `ThrownOther`.
- `TranslatorSession` (`translator_session.dfy`): the page as a machine of
  `State` plus the request in flight. User events and responses are `Event`s,
  and `Run` folds a sequence of them. This module holds the reachable-state
  invariant and the single-request guarantee.

Points where the code decides and prose descriptions of the page differ:

- A thrown `Error` shows its own `.message`, not a generic text. Only a
  thrown non-`Error` value, or a remote error payload without a non-empty
  message, shows "Translation failed". So a transport failure (a rejected
  `fetch`, malformed JSON) shows that error's message. The model follows the
  code (`Raised`, `CaughtMessage`, `Complete`).
- A remote error payload is rethrown as an `Error` and caught by the same
  clause. Its message is the payload's message if that is a non-empty string,
  and "Translation failed" otherwise (the `||` on line 51).
- A success leaves `error` untouched instead of clearing it. It is empty
  after a completed success only because it was cleared when the request
  started and nothing sets it while loading (`Invariant`, `CompletionExclusive`).
- The `disabled` guard already excludes blank text. So a click on the
  button never takes the validation branch (`EnabledClickIssues`). That
  branch is only reachable when the handler is called some other way.
- Swapping and editing stay possible while a request is in flight. The
  response then lands on the state as it is at that moment.
- An error and a translation are exclusive only right after a completion.
  A later swap can move the source text into the translation while an error
  is still shown.

## Model

| member | source | states |
|---|---|---|
| JsString.TrimStart | src/App.tsx:26 | The result is a suffix of the input, all dropped characters are whitespace, and it does not start with whitespace |
| JsString.TrimEnd | src/App.tsx:26 | The result is a prefix of the input, all dropped characters are whitespace, and it does not end with whitespace |
| JsString.Trim | src/App.tsx:26 | `trim()` returns the infix left after all-whitespace ends are removed. It is empty (falsy) exactly when the text is blank |
| LanguageTable.NameIn | src/App.tsx:98-102 | A label is found exactly when some option of the table has that code, and the found label belongs to an entry with that code |
| LanguageTable.DisplayName | src/App.tsx:4-15 | A code has a label exactly when it is one of the ten table codes |
| LanguageTable.CodesDistinct | src/App.tsx:4-15 | The ten option codes, also used as option keys, are pairwise distinct |
| LanguageTable.DefaultsSupported | src/App.tsx:19-20 | The initial `en`/`es` pair are table codes, shown as English and Spanish |
| TranslatorState.HandleTranslate | src/App.tsx:25-45 | Blank text sets the validation message, issues no request and leaves loading, translation and languages alone. Otherwise loading starts, the error is cleared, and the request carries the untrimmed text, the current pair and format "text" |
| TranslatorState.Complete | src/App.tsx:50-60 | Loading ends on every outcome. A success shows the first text verbatim and keeps the error. A remote error shows its message, or "Translation failed" without one. A thrown Error shows its message, and anything else shows "Translation failed". Every failure clears the translation |
| TranslatorState.SwapInvolution | src/App.tsx:63-69 | Swapping twice gives back the original state |
| TranslatorState.SwapExchanges | src/App.tsx:63-69 | Swap exchanges the language pair and the two texts and keeps loading and the error |
| TranslatorState.EnabledClickIssues | src/App.tsx:175 | When the button is enabled, the handler always issues a request and never shows the validation message |
| TranslatorSession.StartInvariant | src/App.tsx:18-23 | The initial page satisfies the session invariant |
| TranslatorSession.StepInvariant | src/App.tsx:25-69 | Every event the page can receive keeps the invariant. Codes stay in the table, loading holds exactly while a request is in flight, no error shows while loading, and the in-flight request has non-blank text |
| TranslatorSession.RunInvariant | src/App.tsx:25-69 | Any sequence of receivable events keeps the invariant |
| TranslatorSession.ReachableInvariant | src/App.tsx:4-23 | Every state reachable from the start has both codes in the table and at most one request in flight |
| TranslatorSession.SingleInFlight | src/App.tsx:175 | While a request is in flight no event issues another. Only its response removes it |
| TranslatorSession.ClickIssues | src/App.tsx:174-175 | A click issues a request exactly when the guard allows it, and that request becomes the one in flight |
| TranslatorSession.InputEventsFrame | src/App.tsx:93-131 | Typing and choosing a language change only their own field. They issue no request and keep selected codes in the table |
| TranslatorSession.CompletionExclusive | src/App.tsx:54-60 | After a response loading has ended and error and translation are never both non-empty. A success shows the first text with an empty error |
| TranslatorSession.HelloScenario | src/App.tsx:41-54 | "Hello" from English to Spanish answered with "Hola" ends in `{ translatedText: "Hola", error: "" }` |
| TranslatorSession.QuotaScenario | src/App.tsx:50-57 | A remote "Quota exceeded" error is shown verbatim beside an empty translation |

## Left out

- The `fetch` call, its URL, the API key read from the build environment, and JSON encoding and decoding (lines 35-48) are network I/O and environment access. The `Outcome` parameter stands in for them.
- Classifying a raw response into an `Outcome` is not modelled. This covers an empty translations list or a missing `data` field, which throw a `TypeError` (a `ThrownError`), and a first entry without `translatedText`, which would store `undefined`. `Success` therefore requires a non-empty list (`WellFormed`).
- `handleSpeak` and the browser's speech synthesis (lines 71-75) are fire-and-forget calls with no effect on the state.
- Rendering, styling and icons (lines 77-187) are presentation only. The translate button's `disabled` guard is kept as `TranslateEnabled`.
- React's asynchronous scheduling and `setState` batching are not modelled. Each handler is one atomic transition, and the `await` is the split between `HandleTranslate` and `Complete`.
- A response arriving after the component is torn down is not modelled: the machine has no unmount event.
- Strings are sequences of Unicode scalar values, not of UTF-16 code units. Every character `trim` removes lies in the Basic Multilingual Plane, so blankness is unaffected.
