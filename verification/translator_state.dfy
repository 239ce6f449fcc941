/**
 The session state of the translator page and its handlers, each taken as
 one atomic transition. The network request is not modelled: translating is
 split at its `await` into `HandleTranslate`, which validates and starts,
 and `Complete`, which maps the request's `Outcome` onto the state and runs
 the `finally` block.
 */
module TranslatorState {
  import opened Options
  import opened JsString
  import opened LanguageTable

  /** Shown when translate is asked for on blank text; no request is made. */
  const EmptyTextMessage: string := "Please enter text to translate"
  /** Shown for a thrown non-`Error` value, and for a remote error without a message. */
  const GenericFailureMessage: string := "Translation failed"
  /** The `format` field of every request body. */
  const RequestFormat: string := "text"

  datatype State = State(
    sourceText: string,
    sourceLang: string,
    targetLang: string,
    translatedText: string,
    isLoading: bool,
    error: string)

  /** The state the page starts in. */
  const Initial: State := State("", DefaultSource, DefaultTarget, "", false, "")

  /** The request body sent to the translation service: `q`, `source`,
      `target`, `format`. */
  datatype Request = Request(q: string, source: string, target: string, format: string)

  /** How an issued request ends, as seen after the `await`s:
      - `Success`: the response has no `error` field and its first
        translation's text is `texts[0]`;
      - `RemoteError`: the response carries an `error` object, whose
        `message` may be absent;
      - `ThrownError`: `fetch`, `response.json()` or the access to the first
        translation threw an `Error` with this `message`;
      - `ThrownOther`: something that is not an `Error` was thrown. */
  datatype Outcome =
    | Success(texts: seq<string>)
    | RemoteError(payloadMessage: Option<string>)
    | ThrownError(message: string)
    | ThrownOther

  /** A success always has a first translation: a response whose list is
      empty fails at the element access and is a `ThrownError`. */
  predicate WellFormed(o: Outcome) {
    o.Success? ==> |o.texts| > 0
  }

  /** What can reach the `catch` clause. */
  datatype Thrown = ErrorObject(message: string) | NonError

  /** The value thrown inside the `try` block, if any. A remote error payload
      is rethrown as an `Error` whose message is the payload's message when
      that is a non-empty string, and the generic message otherwise. */
  function Raised(o: Outcome): Option<Thrown> {
    match o
    case Success(_) => None
    case RemoteError(m) =>
      Some(ErrorObject(if m.Some? && m.value != "" then m.value else GenericFailureMessage))
    case ThrownError(m) => Some(ErrorObject(m))
    case ThrownOther => Some(NonError)
  }

  /** The message the `catch` clause shows for a thrown value. */
  function CaughtMessage(t: Thrown): string {
    match t
    case ErrorObject(m) => m
    case NonError => GenericFailureMessage
  }

  /** The translate button's guard: it is disabled while loading or while
      the source text trims to the empty string. */
  predicate TranslateEnabled(s: State) {
    !s.isLoading && Trim(s.sourceText) != ""
  }

  /** The result of the synchronous part of the translate handler: the new
      state and the request issued, if any. */
  datatype Started = Started(state: State, request: Option<Request>)

  /** The translate handler up to its first `await`. */
  function HandleTranslate(s: State): (r: Started)
    // Blank text: the validation message, no request, nothing else changes.
    ensures r.request.None? <==> IsBlank(s.sourceText)
    ensures IsBlank(s.sourceText) ==>
              && r.state.error == EmptyTextMessage
              && r.state.isLoading == s.isLoading
              && r.state.translatedText == s.translatedText
    // Otherwise: loading, error cleared, and the request carries the text
    // untrimmed and the current language pair.
    ensures !IsBlank(s.sourceText) ==>
              && r.state.isLoading
              && r.state.error == ""
              && r.request == Some(Request(s.sourceText, s.sourceLang, s.targetLang, RequestFormat))
              && r.state.translatedText == s.translatedText
    // Neither branch touches the text being translated or the languages.
    ensures r.state.sourceText == s.sourceText
    ensures r.state.sourceLang == s.sourceLang && r.state.targetLang == s.targetLang
  {
    if Trim(s.sourceText) == "" then
      Started(s.(error := EmptyTextMessage), None)
    else
      Started(s.(isLoading := true, error := ""),
              Some(Request(s.sourceText, s.sourceLang, s.targetLang, RequestFormat)))
  }

  /** The translate handler after its `await`s: the `try` block, the `catch`
      clause and the `finally` block applied to the state current when the
      request ends. */
  function Complete(s: State, o: Outcome): (r: State)
    requires WellFormed(o)
    // Whatever the outcome, loading ends.
    ensures !r.isLoading
    ensures r.sourceText == s.sourceText
    ensures r.sourceLang == s.sourceLang && r.targetLang == s.targetLang
    // Success shows the first translation verbatim and leaves the error alone.
    ensures o.Success? ==> r.translatedText == o.texts[0] && r.error == s.error
    // A remote error shows its message, or the generic one if it has none.
    ensures o.RemoteError? ==>
              && r.translatedText == ""
              && r.error == (if o.payloadMessage.Some? && o.payloadMessage.value != ""
                             then o.payloadMessage.value else GenericFailureMessage)
    // A thrown Error shows its own message, even an empty one.
    ensures o.ThrownError? ==> r.translatedText == "" && r.error == o.message
    ensures o.ThrownOther? ==> r.translatedText == "" && r.error == GenericFailureMessage
    // Any failure leaves a non-empty error only beside an empty translation.
    ensures !o.Success? ==> r.translatedText == ""
    ensures s.error == "" ==> r.error == "" || r.translatedText == ""
  {
    var tried := match Raised(o)
      case None => s.(translatedText := o.texts[0])
      case Some(t) => s.(error := CaughtMessage(t), translatedText := "");
    tried.(isLoading := false)
  }

  /** The swap button: exchanges the language pair and the two texts, with
      no request. */
  function Swap(s: State): State {
    s.(sourceLang := s.targetLang, targetLang := s.sourceLang,
       sourceText := s.translatedText, translatedText := s.sourceText)
  }

  /** The source selector's change handler. */
  function SelectSource(s: State, code: string): State {
    s.(sourceLang := code)
  }

  /** The target selector's change handler. */
  function SelectTarget(s: State, code: string): State {
    s.(targetLang := code)
  }

  /** The source text area's change handler. */
  function EditSource(s: State, text: string): State {
    s.(sourceText := text)
  }

  /** Swapping twice restores every field. */
  lemma SwapInvolution(s: State)
    ensures Swap(Swap(s)) == s
  {
  }

  /** Swapping exchanges the pair and the texts and leaves loading and the
      error alone. */
  lemma SwapExchanges(s: State)
    ensures Swap(s).sourceLang == s.targetLang && Swap(s).targetLang == s.sourceLang
    ensures Swap(s).sourceText == s.translatedText && Swap(s).translatedText == s.sourceText
    ensures Swap(s).isLoading == s.isLoading && Swap(s).error == s.error
  {
  }

  /** The guard admits only non-blank text, so a click on the enabled button
      always issues a request and never shows the validation message. */
  lemma EnabledClickIssues(s: State)
    requires TranslateEnabled(s)
    ensures HandleTranslate(s).request.Some?
    ensures HandleTranslate(s).state.error == ""
  {
  }
}
