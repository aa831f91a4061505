/**
  The client of the local Ollama server (ollama.ts): the base URL, the two
  requests it sends, and how each response is turned into a result.  The
  network is a function from the request sent to what came back.
 */
module Ollama {
  import opened Wrappers
  import opened Types
  import JsString

  /** The host and port the service falls back to when none is given. */
  const DefaultHost: string := "localhost"
  const DefaultPort: nat := 11434

  /** The fixed text that opens every translation prompt, before the language. */
  const PromptLead: string := "Translate the following text to "

  /** The text between the language and the text to translate. */
  const PromptInstruction: string := ". Only respond with the translation, no explanations:\n\n"

  /** An `OllamaService`: where its requests go. */
  datatype Service = Service(baseUrl: string)

  datatype HttpMethod = Get | Post

  /** The JSON body of a generation request. */
  datatype GenerateBody = GenerateBody(
    model: string,
    prompt: string,
    stream: bool,
    temperature: real,
    numPredict: nat)

  /** A request as handed to `fetch`. */
  datatype Request = Request(
    httpMethod: HttpMethod,
    url: string,
    contentType: string,
    body: Option<GenerateBody>)

  /**
    What `response.json()` gives: either it throws, or an object whose
    `models` and `response` fields may be missing.
   */
  datatype Payload = Unparsable | Json(models: Option<seq<OllamaModel>>, response: Option<string>)

  /** A response that arrived. */
  datatype Response = Response(ok: bool, statusText: string, payload: Payload)

  /** What a call to `fetch` ends in: a thrown error, or a response. */
  datatype Outcome = Threw | Responded(response: Response)

  /** Why a translation produced no text. */
  datatype TranslateError =
    | NetworkFailed                 // fetch itself threw; the error propagates
    | HttpFailed(message: string)   // the response was not ok
    | BadPayload                    // the body was not JSON, or had no `response` text

  /** The constructor: `http://host:port`, with the defaults for a missing host or port. */
  function NewService(host: Option<string>, port: Option<nat>): (s: Service)
    ensures |s.baseUrl| > 8 && s.baseUrl[..7] == "http://"
  {
    Service("http://" + OrElse(host, DefaultHost) + ":" + JsString.Decimal(OrElse(port, DefaultPort)))
  }

  /**
    The base URL takes apart into the scheme, the host verbatim, a colon
    and the decimal digits of the port, which read back as the port.
   */
  lemma BaseUrlParts(host: Option<string>, port: Option<nat>)
    ensures var url := NewService(host, port).baseUrl;
            var h := OrElse(host, DefaultHost);
            |url| > 8 + |h| && url[..7] == "http://" && url[7..7 + |h|] == h && url[7 + |h|] == ':' &&
            JsString.IsDigits(url[8 + |h|..]) && JsString.DecimalValue(url[8 + |h|..]) == OrElse(port, DefaultPort)
  {
    var h := OrElse(host, DefaultHost);
    var digits := JsString.Decimal(OrElse(port, DefaultPort));
    var url := NewService(host, port).baseUrl;
    var scheme := "http://";
    assert |scheme| == 7;
    assert url == scheme + h + ":" + digits;
    assert url == (scheme + h) + ([':'] + digits);
    assert url[..7] == scheme;
    assert url[7..7 + |h|] == h;
    assert url[8 + |h|..] == digits;
    JsString.DecimalRoundTrip(OrElse(port, DefaultPort));
  }

  /** With no arguments the service talks to `http://localhost:11434`. */
  lemma DefaultBaseUrl()
    ensures NewService(None, None).baseUrl == "http://localhost:11434"
  {
    var digits := JsString.Decimal(DefaultPort);
    DefaultPortDigits();
    assert NewService(None, None).baseUrl == "http://" + "localhost" + ":" + digits;
  }

  lemma DefaultPortDigits()
    ensures JsString.Decimal(DefaultPort) == "11434"
  {
  }

  /** The stored defaults name the same server as the constructor's defaults. */
  lemma DefaultsAgree()
    ensures NewService(Some(DefaultConfig.ollamaHost), Some(DefaultConfig.ollamaPort)) == NewService(None, None)
  {
  }

  /** The request `checkConnection` and `listModels` send: a GET of the model list, with no body. */
  function TagsRequest(s: Service): (r: Request)
    ensures r.httpMethod == Get && r.body.None?
    ensures |r.url| == |s.baseUrl| + 9 && r.url[..|s.baseUrl|] == s.baseUrl && r.url[|s.baseUrl|..] == "/api/tags"
  {
    Request(Get, s.baseUrl + "/api/tags", "application/json", None)
  }

  /** The prompt: an instruction naming the target language, a blank line, then the text verbatim. */
  function Prompt(targetLanguage: string, text: string): (p: string)
    ensures |p| >= |PromptLead| + |targetLanguage| + 2 + |text|
    ensures p[|p| - |text|..] == text
    ensures p[..|PromptLead| + |targetLanguage|] == PromptLead + targetLanguage
    ensures p[|p| - |text| - 2..|p| - |text|] == "\n\n"
    ensures p[|PromptLead| + |targetLanguage|..|p| - |text|] == PromptInstruction
  {
    var lead := PromptLead + targetLanguage;
    var instruction := PromptInstruction;
    assert instruction[|instruction| - 2..] == "\n\n";
    var p := lead + instruction + text;
    assert p == lead + (instruction + text);
    assert p[|p| - |text| - 2..|p| - |text|] == instruction[|instruction| - 2..];
    assert p[|lead|..|p| - |text|] == instruction;
    p
  }

  /** The request `translate` sends: a non-streaming generation with temperature 0.3 and at most 2048 tokens. */
  function GenerateRequest(s: Service, text: string, targetLanguage: string, model: string): (r: Request)
    ensures r.httpMethod == Post && r.body.Some? && r.body.value.model == model && !r.body.value.stream
    ensures |r.url| == |s.baseUrl| + 13 && r.url[..|s.baseUrl|] == s.baseUrl && r.url[|s.baseUrl|..] == "/api/generate"
    ensures |r.body.value.prompt| >= |text| && r.body.value.prompt[|r.body.value.prompt| - |text|..] == text
    ensures r.body.value.prompt == Prompt(targetLanguage, text)
    ensures r.body.value.temperature == 0.3 && r.body.value.numPredict == 2048
  {
    Request(Post, s.baseUrl + "/api/generate", "application/json",
            Some(GenerateBody(model, Prompt(targetLanguage, text), false, 0.3, 2048)))
  }

  /** checkConnection: whether the tag list answered with an ok status; a thrown error is `false`. */
  function CheckConnection(s: Service, fetch: Request -> Outcome): (up: bool)
    ensures up <==> fetch(TagsRequest(s)).Responded? && fetch(TagsRequest(s)).response.ok
  {
    match fetch(TagsRequest(s))
    case Threw => false
    case Responded(response) => response.ok
  }

  /**
    listModels: the `models` of an ok answer; the empty list when the
    request throws, the status is not ok, the body is not JSON or has no
    `models`.
   */
  function ListModels(s: Service, fetch: Request -> Outcome): (models: seq<OllamaModel>)
    ensures models != [] ==> fetch(TagsRequest(s)).Responded? && fetch(TagsRequest(s)).response.ok
    ensures (fetch(TagsRequest(s)).Responded? && fetch(TagsRequest(s)).response.ok &&
             fetch(TagsRequest(s)).response.payload.Json? &&
             fetch(TagsRequest(s)).response.payload.models.Some?) ==>
            models == fetch(TagsRequest(s)).response.payload.models.value
    ensures var outcome := fetch(TagsRequest(s));
            var usable := outcome.Responded? && outcome.response.ok && outcome.response.payload.Json? &&
                          outcome.response.payload.models.Some?;
            !usable ==> models == []
  {
    match fetch(TagsRequest(s))
    case Threw => []
    case Responded(response) =>
      if !response.ok then []
      else match response.payload
        case Unparsable => []
        case Json(models, _) => OrElse(models, [])
  }

  /**
    translate: sends the generation request; fails with "Translation
    failed: " and the status text when the status is not ok, and otherwise
    returns the generated text with surrounding whitespace removed.
   */
  function Translate(s: Service, text: string, targetLanguage: string, model: string, fetch: Request -> Outcome)
    : (r: Result<string, TranslateError>)
    ensures var outcome := fetch(GenerateRequest(s, text, targetLanguage, model));
            outcome.Threw? ==> r == Failure(NetworkFailed)
    ensures var outcome := fetch(GenerateRequest(s, text, targetLanguage, model));
            outcome.Responded? && !outcome.response.ok ==>
              r == Failure(HttpFailed("Translation failed: " + outcome.response.statusText))
    ensures var outcome := fetch(GenerateRequest(s, text, targetLanguage, model));
            r.Success? <==> (outcome.Responded? && outcome.response.ok &&
                             outcome.response.payload.Json? && outcome.response.payload.response.Some?)
    ensures r.Success? ==> r.value == [] ||
                           (!JsString.IsWhitespace(r.value[0]) && !JsString.IsWhitespace(r.value[|r.value| - 1]))
  {
    match fetch(GenerateRequest(s, text, targetLanguage, model))
    case Threw => Failure(NetworkFailed)
    case Responded(response) =>
      if !response.ok then Failure(HttpFailed("Translation failed: " + response.statusText))
      else match response.payload
        case Unparsable => Failure(BadPayload)
        case Json(_, generated) =>
          if generated.None? then Failure(BadPayload)
          else JsString.TrimSpec(generated.value); Success(JsString.Trim(generated.value))
  }

  /**
    A successful translation is the generated text with whitespace removed
    from both ends and nothing else: it is an infix of the generated text,
    with only whitespace around it, and trimming it again changes nothing.
   */
  lemma TranslateTrims(s: Service, text: string, targetLanguage: string, model: string, fetch: Request -> Outcome)
    requires Translate(s, text, targetLanguage, model, fetch).Success?
    ensures var generated := fetch(GenerateRequest(s, text, targetLanguage, model)).response.payload.response.value;
            var t := Translate(s, text, targetLanguage, model, fetch).value;
            JsString.Trim(t) == t &&
            exists i, j :: 0 <= i <= j <= |generated| && t == generated[i..j] &&
                           JsString.IsBlank(generated[..i]) && JsString.IsBlank(generated[j..])
  {
    var generated := fetch(GenerateRequest(s, text, targetLanguage, model)).response.payload.response.value;
    assert Translate(s, text, targetLanguage, model, fetch).value == JsString.Trim(generated);
    JsString.TrimIsInfix(generated);
    JsString.TrimIdempotent(generated);
  }

  /** A server answering " Hola " yields "Hola". */
  lemma TranslateHola(s: Service, text: string, targetLanguage: string, model: string, fetch: Request -> Outcome)
    requires fetch(GenerateRequest(s, text, targetLanguage, model)) == Responded(Response(true, "OK", Json(None, Some(" Hola "))))
    ensures Translate(s, text, targetLanguage, model, fetch) == Success("Hola")
  {
    JsString.TrimHola();
  }
}
