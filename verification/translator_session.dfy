/**
 The page as an event-driven machine: the session state together with the
 request currently in flight. User events run their handlers; a `Response`
 event is the in-flight request ending with some `Outcome`.
 */
module TranslatorSession {
  import opened Options
  import opened JsString
  import opened LanguageTable
  import opened TranslatorState

  /** Everything that can happen to the page. */
  datatype Event =
    | EditText(text: string)        // typing in the source text area
    | PickSource(code: string)      // choosing an option of the source selector
    | PickTarget(code: string)      // choosing an option of the target selector
    | SwapClick                     // the swap button
    | TranslateClick                // the translate button
    | Response(outcome: Outcome)    // the pending request ends

  datatype Machine = Machine(state: State, inFlight: Option<Request>)

  const Start: Machine := Machine(Initial, None)

  /** The events the page can actually receive: a selector only reports the
      value of one of its options, and a success carries a translation. */
  predicate Deliverable(e: Event) {
    match e
    case PickSource(c) => Supported(c)
    case PickTarget(c) => Supported(c)
    case Response(o) => WellFormed(o)
    case _ => true
  }

  /** The request an event issues, if any: only a click on the enabled
      translate button does. */
  function Issued(m: Machine, e: Event): Option<Request> {
    if e.TranslateClick? && TranslateEnabled(m.state) then HandleTranslate(m.state).request
    else None
  }

  /** One event. A click on the disabled translate button does nothing, and
      with nothing in flight there is no response to receive. */
  function Step(m: Machine, e: Event): Machine
    requires Deliverable(e)
  {
    match e
    case EditText(t) => m.(state := EditSource(m.state, t))
    case PickSource(c) => m.(state := SelectSource(m.state, c))
    case PickTarget(c) => m.(state := SelectTarget(m.state, c))
    case SwapClick => m.(state := Swap(m.state))
    case TranslateClick =>
      if TranslateEnabled(m.state) then
        var started := HandleTranslate(m.state);
        Machine(started.state, started.request)
      else m
    case Response(o) =>
      if m.inFlight.Some? then Machine(Complete(m.state, o), None) else m
  }

  /** A run of events from `m`. */
  function Run(m: Machine, es: seq<Event>): Machine
    requires forall i :: 0 <= i < |es| ==> Deliverable(es[i])
    decreases |es|
  {
    if |es| == 0 then m else Run(Step(m, es[0]), es[1..])
  }

  /** What holds of the page between events:
      - both language codes are options of the selectors;
      - the page is loading exactly while a request is in flight;
      - no error is shown while loading (it was cleared at the start);
      - the request in flight carries non-blank text and supported codes. */
  predicate Invariant(m: Machine) {
    && Supported(m.state.sourceLang)
    && Supported(m.state.targetLang)
    && (m.state.isLoading <==> m.inFlight.Some?)
    && (m.state.isLoading ==> m.state.error == "")
    && (m.inFlight.Some? ==>
          && !IsBlank(m.inFlight.value.q)
          && Supported(m.inFlight.value.source)
          && Supported(m.inFlight.value.target)
          && m.inFlight.value.format == RequestFormat)
  }

  lemma StartInvariant()
    ensures Invariant(Start)
  {
    DefaultsSupported();
  }

  /** Every deliverable event keeps the invariant. */
  lemma StepInvariant(m: Machine, e: Event)
    requires Invariant(m) && Deliverable(e)
    ensures Invariant(Step(m, e))
  {
  }

  /** The invariant holds after any run from a state that has it. */
  lemma {:induction false} RunInvariant(m: Machine, es: seq<Event>)
    requires Invariant(m)
    requires forall i :: 0 <= i < |es| ==> Deliverable(es[i])
    ensures Invariant(Run(m, es))
    decreases |es|
  {
    if |es| > 0 {
      StepInvariant(m, es[0]);
      assert forall i :: 0 <= i < |es[1..]| ==> Deliverable(es[1..][i]) by {
        forall i | 0 <= i < |es[1..]| ensures Deliverable(es[1..][i]) {
          assert es[1..][i] == es[i + 1];
        }
      }
      RunInvariant(Step(m, es[0]), es[1..]);
    }
  }

  /** Every state the page reaches has both languages in the table and is
      loading exactly while one request is in flight. */
  lemma ReachableInvariant(es: seq<Event>)
    requires forall i :: 0 <= i < |es| ==> Deliverable(es[i])
    ensures Invariant(Run(Start, es))
  {
    StartInvariant();
    RunInvariant(Start, es);
  }

  /** At most one request is in flight: while one is, no event issues
      another, and only its response removes it. */
  lemma SingleInFlight(m: Machine, e: Event)
    requires Invariant(m) && Deliverable(e)
    requires m.inFlight.Some?
    ensures Issued(m, e) == None
    ensures !e.Response? ==> Step(m, e).inFlight == m.inFlight
    ensures e.Response? ==> Step(m, e).inFlight == None
  {
  }

  /** The translate button issues exactly the request `HandleTranslate`
      builds, and it becomes the one in flight. */
  lemma ClickIssues(m: Machine)
    requires Invariant(m)
    ensures Issued(m, TranslateClick).Some? <==> TranslateEnabled(m.state)
    ensures Issued(m, TranslateClick).Some? ==>
              && Step(m, TranslateClick).inFlight == Issued(m, TranslateClick)
              && Issued(m, TranslateClick).value
                 == Request(m.state.sourceText, m.state.sourceLang, m.state.targetLang, RequestFormat)
  {
  }

  /** Typing and choosing languages change only their own field: they issue
      no request, touch neither loading nor the error nor the translation,
      and a chosen code stays in the table. */
  lemma InputEventsFrame(m: Machine, e: Event)
    requires Invariant(m) && Deliverable(e)
    requires e.EditText? || e.PickSource? || e.PickTarget?
    ensures Issued(m, e) == None
    ensures Step(m, e).inFlight == m.inFlight
    ensures Step(m, e).state.isLoading == m.state.isLoading
    ensures Step(m, e).state.error == m.state.error
    ensures Step(m, e).state.translatedText == m.state.translatedText
    ensures e.EditText? ==> Step(m, e).state == m.state.(sourceText := e.text)
    ensures e.PickSource? ==> Step(m, e).state == m.state.(sourceLang := e.code)
    ensures e.PickTarget? ==> Step(m, e).state == m.state.(targetLang := e.code)
    ensures Supported(Step(m, e).state.sourceLang) && Supported(Step(m, e).state.targetLang)
  {
  }

  /** After a response, loading has ended and an error is never shown beside
      a translation; a success shows its first text with no error. */
  lemma CompletionExclusive(m: Machine, o: Outcome)
    requires Invariant(m) && WellFormed(o)
    requires m.inFlight.Some?
    ensures !Step(m, Response(o)).state.isLoading
    ensures Step(m, Response(o)).state.error == "" || Step(m, Response(o)).state.translatedText == ""
    ensures o.Success? ==>
              Step(m, Response(o)).state.translatedText == o.texts[0]
              && Step(m, Response(o)).state.error == ""
  {
  }

  /** English "Hello" into Spanish, answered with "Hola". */
  lemma HelloScenario()
    ensures Run(Start, [EditText("Hello"), TranslateClick, Response(Success(["Hola"]))]).state
            == State("Hello", "en", "es", "Hola", false, "")
  {
  }

  /** A remote "Quota exceeded" error is shown as is, with no translation. */
  lemma QuotaScenario(m: Machine)
    requires Invariant(m) && m.inFlight.Some?
    ensures Step(m, Response(RemoteError(Some("Quota exceeded")))).state.error == "Quota exceeded"
    ensures Step(m, Response(RemoteError(Some("Quota exceeded")))).state.translatedText == ""
  {
  }
}
