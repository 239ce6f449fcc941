/** The fixed table of languages both selectors offer. */
module LanguageTable {
  import opened Options

  /** One selectable language: the code sent to the translation service and
      the label shown in the selector. */
  datatype Language = Language(code: string, name: string)

  /** The table, in the order the selectors list it. */
  const LANGUAGES: seq<Language> := [
    Language("en", "English"),
    Language("es", "Spanish"),
    Language("fr", "French"),
    Language("de", "German"),
    Language("it", "Italian"),
    Language("pt", "Portuguese"),
    Language("ru", "Russian"),
    Language("zh", "Chinese"),
    Language("ja", "Japanese"),
    Language("ko", "Korean")
  ]

  /** The code the session starts with on each side. */
  const DefaultSource: string := "en"
  const DefaultTarget: string := "es"

  /** `code` is the value of some entry of `table`. */
  predicate Offers(table: seq<Language>, code: string) {
    exists i :: 0 <= i < |table| && table[i].code == code
  }

  /** `code` is the value of one of the selectors' options. */
  predicate Supported(code: string) {
    Offers(LANGUAGES, code)
  }

  /** The label of the first entry of `table` whose code is `code`: what a
      selector whose value is `code` displays. */
  function NameIn(table: seq<Language>, code: string): (r: Option<string>)
    ensures r.Some? <==> Offers(table, code)
    ensures r.Some? ==> Language(code, r.value) in table
  {
    if |table| == 0 then None
    else if table[0].code == code then Some(table[0].name)
    else
      assert Offers(table, code) ==> Offers(table[1..], code) by {
        if Offers(table, code) {
          var i :| 0 <= i < |table| && table[i].code == code;
          assert table[1..][i - 1].code == code;
        }
      }
      NameIn(table[1..], code)
  }

  /** The label shown for `code` in either selector. */
  function DisplayName(code: string): (r: Option<string>)
    ensures r.Some? <==> Supported(code)
    ensures r.Some? ==> Language(code, r.value) in LANGUAGES
  {
    NameIn(LANGUAGES, code)
  }

  /** Every option value is distinct (each serves as the option's key), so
      each supported code selects exactly one entry. */
  lemma CodesDistinct()
    ensures forall i, j :: 0 <= i < j < |LANGUAGES| ==> LANGUAGES[i].code != LANGUAGES[j].code
  {
  }

  /** The session's starting codes are options of both selectors. */
  lemma DefaultsSupported()
    ensures Supported(DefaultSource) && Supported(DefaultTarget)
    ensures DisplayName(DefaultSource) == Some("English")
    ensures DisplayName(DefaultTarget) == Some("Spanish")
  {
    assert LANGUAGES[0].code == DefaultSource;
    assert LANGUAGES[1].code == DefaultTarget;
  }
}
