/**
  The shared data of the extension: the supported languages and the
  translator configuration with its defaults.
 */
module Types {
  import opened Wrappers

  /** A model as the server's tag list describes it. */
  datatype OllamaModel = OllamaModel(name: string, model: string, modifiedAt: string, size: nat, digest: string)

  /** A language the user can pick: its code and its English name. */
  datatype Language = Language(code: string, name: string)

  /** The stored settings of the translator. */
  datatype TranslatorConfig = TranslatorConfig(
    ollamaPort: nat,
    ollamaHost: string,
    selectedModel: string,
    readLanguage: string,
    writeLanguage: string)

  /** The languages offered, in the order the settings list them. */
  const SupportedLanguages: seq<Language> := [
    Language("en", "English"), Language("es", "Spanish"), Language("fr", "French"),
    Language("de", "German"), Language("it", "Italian"), Language("pt", "Portuguese"),
    Language("ru", "Russian"), Language("zh", "Chinese"), Language("ja", "Japanese"),
    Language("ko", "Korean"), Language("ar", "Arabic"), Language("hi", "Hindi"),
    Language("nl", "Dutch"), Language("pl", "Polish"), Language("tr", "Turkish"),
    Language("vi", "Vietnamese"), Language("th", "Thai"), Language("sv", "Swedish"),
    Language("da", "Danish"), Language("fi", "Finnish"), Language("no", "Norwegian"),
    Language("cs", "Czech"), Language("el", "Greek"), Language("he", "Hebrew"),
    Language("hu", "Hungarian"), Language("id", "Indonesian"), Language("ms", "Malay"),
    Language("ro", "Romanian"), Language("sk", "Slovak"), Language("uk", "Ukrainian")
  ]

  /** The configuration used when nothing is stored. */
  const DefaultConfig: TranslatorConfig := TranslatorConfig(
    ollamaPort := 11434,
    ollamaHost := "localhost",
    selectedModel := "",
    readLanguage := "es",
    writeLanguage := "en")

  /** The index of the first language in `langs` with `code`, as `Array.prototype.find` takes it. */
  function FindIndex(langs: seq<Language>, code: string): (r: Option<nat>)
    ensures r.Some? ==> r.value < |langs| && langs[r.value].code == code
    ensures r.Some? ==> forall k :: 0 <= k < r.value ==> langs[k].code != code
    ensures r.None? ==> forall k :: 0 <= k < |langs| ==> langs[k].code != code
  {
    if langs == [] then None
    else if langs[0].code == code then Some(0)
    else match FindIndex(langs[1..], code)
      case None => None
      case Some(i) => Some(i + 1)
  }

  /**
    `languages.find((l) => l.code === code)?.name || fallback`: the name of
    the first language with that code, or `fallback` when there is none or
    its name is empty.
   */
  function LanguageName(languages: seq<Language>, code: string, fallback: string): (name: string)
    ensures (exists k :: 0 <= k < |languages| && languages[k].code == code) || name == fallback
    ensures (forall k :: 0 <= k < |languages| ==> languages[k].code != code) ==> name == fallback
    ensures name != fallback ==>
              exists k :: 0 <= k < |languages| && languages[k].code == code && name == languages[k].name
  {
    match FindIndex(languages, code)
    case None => fallback
    case Some(i) => if languages[i].name != "" then languages[i].name else fallback
  }

  /**
    The name comes from the first entry with the code: its name when that
    is not empty, the fallback otherwise.
   */
  lemma LanguageNameOfFirst(languages: seq<Language>, code: string, fallback: string, k: nat)
    requires k < |languages| && languages[k].code == code
    requires forall j :: 0 <= j < k ==> languages[j].code != code
    ensures LanguageName(languages, code, fallback) == if languages[k].name != "" then languages[k].name else fallback
  {
    assert FindIndex(languages, code) == Some(k);
  }

  /** A two-letter code packed into one number; equal codes have equal keys. */
  function CodeKey(code: string): int {
    if |code| == 2 then (code[0] as int) * 128 + code[1] as int else -1
  }

  /** The keys of the table's codes, in table order. */
  const CodeKeys: seq<int> := [
    13038, 13043, 13170, 12901, 13556, 14452, 14709, 15720, 13665, 13807,
    12530, 13417, 14188, 14444, 14962, 15209, 14952, 14838, 12897, 13161,
    14191, 12787, 13036, 13413, 13429, 13540, 14067, 14703, 14827, 15083
  ]

  lemma CodeKeysMatch()
    ensures |SupportedLanguages| == |CodeKeys| == 30
    ensures forall i :: 0 <= i < 30 ==> CodeKey(SupportedLanguages[i].code) == CodeKeys[i]
  {
  }

  lemma CodeKeysDistinct()
    ensures forall i, j :: 0 <= i < j < |CodeKeys| ==> CodeKeys[i] != CodeKeys[j]
  {
  }

  /** The table has 30 languages, no two with the same code. */
  lemma SupportedLanguagesDistinct()
    ensures |SupportedLanguages| == 30
    ensures forall i, j :: 0 <= i < j < |SupportedLanguages| ==> SupportedLanguages[i].code != SupportedLanguages[j].code
  {
    CodeKeysMatch();
    CodeKeysDistinct();
  }

  /** Every language in the table has a non-empty name. */
  lemma NamesNonEmpty()
    ensures forall k :: 0 <= k < |SupportedLanguages| ==> SupportedLanguages[k].name != ""
  {
    forall k | 0 <= k < |SupportedLanguages|
      ensures SupportedLanguages[k].name != ""
    {
      assert |SupportedLanguages[k].name| > 0;
    }
  }

  /** A code in the table never takes the fallback: it turns into the name of its first entry. */
  lemma KnownCodeName(code: string, fallback: string)
    requires exists k :: 0 <= k < |SupportedLanguages| && SupportedLanguages[k].code == code
    ensures exists k :: (0 <= k < |SupportedLanguages| && SupportedLanguages[k].code == code
      && LanguageName(SupportedLanguages, code, fallback) == SupportedLanguages[k].name)
  {
    var i := FindIndex(SupportedLanguages, code).value;
    NamesNonEmpty();
    assert SupportedLanguages[i].name != "";
  }

  /** The default languages are in the table: reading turns into Spanish, writing into English. */
  lemma DefaultLanguages(fallback: string)
    ensures LanguageName(SupportedLanguages, DefaultConfig.readLanguage, fallback) == "Spanish"
    ensures LanguageName(SupportedLanguages, DefaultConfig.writeLanguage, fallback) == "English"
  {
  }

  /** A fresh configuration has no model selected. */
  lemma DefaultHasNoModel()
    ensures DefaultConfig.selectedModel == ""
  {
  }
}
