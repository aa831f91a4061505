/**
  The content script (content.tsx): the reading time of a translation, the
  test for complex chat editors, the single popup with its auto-close
  timer, the three ways text is put into an editable element, and the two
  keyboard-driven translation flows.

  The page is abstract.  What the browser answers (`execCommand` results,
  the clipboard, the element's text after an insertion) arrives as
  parameters, and what the script does to the page is appended to a log of
  effects.
 */
module Content {
  import opened Wrappers
  import opened Types
  import JsString
  import Storage

  // ---------------------------------------------------------------------
  // Reading time
  // ---------------------------------------------------------------------

  /** The number of pieces `text.trim().split(/\s+/)` yields. */
  function WordCount(text: string): (n: nat)
    ensures n >= 1
  {
    |JsString.Split(JsString.Trim(text))|
  }

  /**
    For text that is not blank the count is the number of words: every
    piece of the trimmed text is a non-empty run without whitespace.
   */
  lemma WordsOfText(text: string)
    requires !JsString.IsBlank(text)
    ensures forall k :: 0 <= k < WordCount(text) ==>
              JsString.Split(JsString.Trim(text))[k] != [] && JsString.NoWhitespace(JsString.Split(JsString.Trim(text))[k])
  {
    var t := JsString.Trim(text);
    var pieces := JsString.Split(t);
    JsString.TrimEmptyIffBlank(text);
    JsString.TrimSpec(text);
    assert t != [] && !JsString.IsWhitespace(t[0]) && !JsString.IsWhitespace(t[|t| - 1]);
    JsString.SplitJoin(t);
    JsString.SplitEnds(t);
    forall k | 0 <= k < |pieces|
      ensures pieces[k] != []
    {
      if 0 < k < |pieces| - 1 {
        assert pieces[k] != [];
      }
    }
  }

  /** `Math.min` and `Math.max` on numbers. */
  function Min(a: real, b: real): real { if a <= b then a else b }
  function Max(a: real, b: real): real { if a >= b then a else b }

  /**
    calculateReadingTime, in milliseconds: 200 words a minute plus one
    second, kept between two and thirty seconds.
   */
  function ReadingTime(text: string): (ms: real)
    ensures 2000.0 <= ms <= 30000.0
  {
    var words := WordCount(text) as real;
    var ms := (words / 200.0) * 60.0 * 1000.0 + 1000.0;
    Max(2000.0, Min(30000.0, ms))
  }

  /** `x` clamped to the range from `lo` to `hi`. */
  function Clamp(x: int, lo: int, hi: int): int
    requires lo <= hi
  {
    if x < lo then lo else if x > hi then hi else x
  }

  /** The reading time is 300 ms a word plus 1000 ms, clamped to 2000..30000. */
  lemma ReadingTimeFormula(text: string)
    ensures ReadingTime(text) == Clamp(300 * WordCount(text) + 1000, 2000, 30000) as real
  {
    var w := WordCount(text);
    assert (w as real / 200.0) * 60.0 * 1000.0 + 1000.0 == (300 * w + 1000) as real;
  }

  /** More words never mean less time. */
  lemma ReadingTimeMonotone(a: string, b: string)
    requires WordCount(a) <= WordCount(b)
    ensures ReadingTime(a) <= ReadingTime(b)
  {
    ReadingTimeFormula(a);
    ReadingTimeFormula(b);
  }

  /** One word gets the minimum, 97 words or more get the maximum. */
  lemma ReadingTimeEnds(text: string)
    ensures WordCount(text) == 1 ==> ReadingTime(text) == 2000.0
    ensures WordCount(text) >= 97 ==> ReadingTime(text) == 30000.0
    ensures WordCount(text) <= 96 ==> ReadingTime(text) < 30000.0
  {
    ReadingTimeFormula(text);
  }

  /** Blank text still counts as one word: the empty string splits into one piece. */
  lemma BlankIsOneWord(text: string)
    requires JsString.IsBlank(text)
    ensures WordCount(text) == 1
  {
    JsString.TrimEmptyIffBlank(text);
    JsString.SplitEmpty();
  }

  // ---------------------------------------------------------------------
  // Elements
  // ---------------------------------------------------------------------

  datatype ElementKind = Input | TextArea | OtherElement

  /**
    An element of the page, as far as the script looks at it.  `innerText`
    and `textContent` are what the element holds before any insertion;
    `hasNativeSetter` says whether the prototype of an input or text area
    has a `value` setter.
   */
  datatype Element = Element(
    kind: ElementKind,
    isContentEditable: bool,
    value: string,
    innerText: string,
    textContent: Option<string>,
    hasNativeSetter: bool)

  /** An input or a text area. */
  predicate IsTextField(e: Element) {
    e.kind == Input || e.kind == TextArea
  }

  /** What the key handler treats as an input: a text field or an editable element. */
  predicate IsEditable(e: Element) {
    IsTextField(e) || e.isContentEditable
  }

  /** The hosts whose editors need the select-all-and-insert strategy. */
  const ComplexHosts: seq<string> := ["web.whatsapp.com", "web.telegram.org"]

  /**
    isComplexEditor: whether the page's hostname contains one of the
    complex hosts.  The element is not looked at.
   */
  function IsComplexEditor(hostname: string, element: Element): (r: bool)
    ensures r <==> (exists i: nat :: JsString.OccursAt(hostname, ComplexHosts[0], i)) ||
                   (exists i: nat :: JsString.OccursAt(hostname, ComplexHosts[1], i))
  {
    JsString.ContainsIff(hostname, ComplexHosts[0]);
    JsString.ContainsIff(hostname, ComplexHosts[1]);
    JsString.Contains(hostname, "web.whatsapp.com") || JsString.Contains(hostname, "web.telegram.org")
  }

  /** The test depends on the hostname alone. */
  lemma ComplexEditorIgnoresElement(hostname: string, a: Element, b: Element)
    ensures IsComplexEditor(hostname, a) == IsComplexEditor(hostname, b)
  {
  }

  /**
    The text handleInputTranslation starts from: the value of a text field;
    `innerText || textContent || ""` of an editable element; otherwise "".
   */
  function InputText(e: Element): (text: string)
    ensures IsTextField(e) ==> text == e.value
    ensures !IsEditable(e) ==> text == ""
    ensures !IsTextField(e) && e.isContentEditable && e.innerText != "" ==> text == e.innerText
    ensures !IsTextField(e) && e.isContentEditable && e.innerText == "" ==> text == OrElse(e.textContent, "")
  {
    if IsTextField(e) then e.value
    else if e.isContentEditable then
      if e.innerText != "" then e.innerText
      else if e.textContent.Some? && e.textContent.value != "" then e.textContent.value
      else ""
    else ""
  }

  // ---------------------------------------------------------------------
  // Notifications and messages
  // ---------------------------------------------------------------------

  /**
    The notification texts.  The two that open with a symbol carry, as
    content.tsx holds them, the check mark U+2713 and the warning sign
    U+26A0 encoded as UTF-8 and read back as Windows-1252: "âœ“"
    and "âš ".
   */
  const NoTextNote: string := "No text to translate"
  const NoModelNote: string := "Please select a model in settings"
  const SelectModelNote: string := "Select a model first"
  const InputFailedNote: string := "Translation failed. Check Ollama."
  const SelectionFailedNote: string := "Translation failed."
  const CopiedNote: string := "\U{E2}\U{161}\U{A0} Auto-insert failed. Text copied to clipboard."

  /** The notification after a successful insertion. */
  function TranslatedNote(targetLanguage: string): string {
    "\U{E2}\U{153}\U{201C} Translated to " + targetLanguage + "!"
  }

  /** The payload of the TRANSLATE message: the text, the language name, and the model and server of `config`. */
  function Message(text: string, targetLanguage: string, config: TranslatorConfig): TranslateMessage {
    TranslateMessage(text, targetLanguage, config.selectedModel, config.ollamaHost, config.ollamaPort)
  }

  /** `selection?.toString().trim()`, with no selection read as the empty string. */
  function SelectedText(selection: Option<string>): (text: string)
    ensures selection.None? ==> text == ""
    ensures text == [] || (!JsString.IsWhitespace(text[0]) && !JsString.IsWhitespace(text[|text| - 1]))
  {
    if selection.None? then "" else JsString.TrimSpec(selection.value); JsString.Trim(selection.value)
  }

  /** Nothing is selected exactly when there is no selection or it is all whitespace. */
  lemma SelectedTextEmpty(selection: Option<string>)
    ensures SelectedText(selection) == "" <==> selection.None? || JsString.IsBlank(selection.value)
  {
    if selection.Some? {
      JsString.TrimEmptyIffBlank(selection.value);
    }
  }

  /** The popup on screen: the loading indicator or a translation. */
  datatype Popup = Loading | Translation(text: string)

  /** The auto-close interval of a translation popup: when it started and how long it lasts. */
  datatype Timer = Timer(start: int, readingTime: real)

  /** The look of a notification. */
  datatype NoteKind = SuccessNote | ErrorNote | WarningNote

  /** The message sent to the background worker to translate `text`. */
  datatype TranslateMessage = TranslateMessage(
    text: string,
    targetLanguage: string,
    model: string,
    host: string,
    port: nat)

  /** One thing the script does to the page or the browser. */
  datatype Effect =
    | Focus
    | SelectAll
    | Wait(ms: nat)
    | InsertText(text: string)
    | Paste
    | SetValue(newValue: string, native: bool)
    | DispatchInput
    | DispatchChange
    | Notify(message: string, kind: NoteKind)
    | SendTranslate(request: TranslateMessage)
    | PreventDefault
    | StopPropagation

  /** `{ success, method }` of insertTextIntoElement. */
  datatype InsertResult = InsertResult(success: bool, methodName: string)

  /**
    What the browser answers while text is inserted: the result of
    `execCommand('insertText')`, the element's `innerText` after it,
    whether `clipboard.readText` resolves (it then gives what the clipboard
    holds), whether `clipboard.writeText` of the translation resolves, and
    the result of `execCommand('paste')`.
   */
  datatype Browser = Browser(
    insertTextOk: bool,
    innerTextAfter: string,
    clipboardReadOk: bool,
    clipboardWriteOk: bool,
    pasteOk: bool)

  /** Which handler a key press went to. */
  datatype Route = ClosedPopup | InputPath | SelectionPath | Ignored

  /** The log holds a message to the background worker. */
  predicate Sends(log: seq<Effect>) {
    exists i :: 0 <= i < |log| && log[i].SendTranslate?
  }

  /** The log holds an input or change event. */
  predicate Dispatches(log: seq<Effect>) {
    exists i :: 0 <= i < |log| && (log[i].DispatchInput? || log[i].DispatchChange?)
  }

  /** Every effect in the log acts on the element being edited: no message, no notification. */
  predicate EditingOnly(log: seq<Effect>) {
    forall i :: 0 <= i < |log| ==> Editing(log[i])
  }

  /** An effect on the element being edited. */
  predicate Editing(e: Effect) {
    !e.Notify? && !e.SendTranslate? && !e.PreventDefault? && !e.StopPropagation?
  }

  lemma EditingOnlyAppend(a: seq<Effect>, b: seq<Effect>)
    requires EditingOnly(a) && EditingOnly(b)
    ensures EditingOnly(a + b)
  {
    forall i | 0 <= i < |a + b|
      ensures Editing((a + b)[i])
    {
      if i >= |a| {
        assert (a + b)[i] == b[i - |a|];
      }
    }
  }

  /** The editing commands in `log`, in order: the insertions and pastes tried. */
  function Commands(log: seq<Effect>): (r: seq<Effect>)
    ensures |r| <= |log|
    ensures forall e :: e in r ==> e in log && (e.InsertText? || e.Paste?)
  {
    if log == [] then []
    else Commands(log[..|log| - 1]) +
         (if log[|log| - 1].InsertText? || log[|log| - 1].Paste? then [log[|log| - 1]] else [])
  }

  /** The commands of a concatenation are those of each part. */
  lemma {:induction false} CommandsAppend(a: seq<Effect>, b: seq<Effect>)
    ensures Commands(a + b) == Commands(a) + Commands(b)
    decreases |b|
  {
    if b == [] {
      assert a + b == a;
    } else {
      assert (a + b)[..|a + b| - 1] == a + b[..|b| - 1];
      CommandsAppend(a, b[..|b| - 1]);
    }
  }

  /** Focus, select all, wait, then one command: the command is the only one tried. */
  lemma CommandsOfAttempt(ms: nat, command: Effect)
    requires command.InsertText? || command.Paste?
    ensures Commands([Focus, SelectAll, Wait(ms), command]) == [command]
    ensures Commands([DispatchInput, DispatchChange]) == []
  {
    var log := [Focus, SelectAll, Wait(ms), command];
    assert log[..3][..2][..1][..0] == [];
    assert Commands(log[..3][..2][..1]) == [];
    assert Commands(log[..3][..2]) == [];
    assert Commands(log[..3]) == [];
    var events := [DispatchInput, DispatchChange];
    assert events[..1][..0] == [];
    assert Commands(events[..1]) == [];
  }

  /** An attempt and its events act on the element only. */
  lemma EditingAttempt(ms: nat, command: Effect)
    requires command.InsertText? || command.Paste?
    ensures EditingOnly([Focus, SelectAll, Wait(ms), command])
    ensures EditingOnly([DispatchInput, DispatchChange])
  {
  }

  // ---------------------------------------------------------------------
  // Inserting text
  // ---------------------------------------------------------------------

  /** The complex branch's first strategy succeeds: insertText worked and the trimmed text is not empty. */
  predicate InsertTextWorks(b: Browser) {
    b.insertTextOk && JsString.Trim(b.innerTextAfter) != ""
  }

  /** The first strategy counts as working exactly when the element holds more than whitespace. */
  lemma InsertTextWorksIff(b: Browser)
    ensures InsertTextWorks(b) <==> b.insertTextOk && !JsString.IsBlank(b.innerTextAfter)
  {
    JsString.TrimEmptyIffBlank(b.innerTextAfter);
  }

  /** The complex branch's fallback succeeds: the clipboard took the text and paste worked. */
  predicate PasteWorks(b: Browser) {
    b.clipboardWriteOk && b.pasteOk
  }

  /**
    Whether insertTextIntoElement reports success: on a complex editor, one
    of its two strategies worked; in a text field, always; elsewhere, when
    insertText worked.
   */
  function InsertSucceeds(hostname: string, e: Element, b: Browser): (ok: bool)
    ensures !(IsComplexEditor(hostname, e) && e.isContentEditable) && IsTextField(e) ==> ok
    ensures ok && !IsTextField(e) ==> b.insertTextOk || PasteWorks(b)
    ensures !ok ==> !b.insertTextOk || (IsComplexEditor(hostname, e) && e.isContentEditable)
    ensures IsComplexEditor(hostname, e) && e.isContentEditable ==> (ok <==> InsertTextWorks(b) || PasteWorks(b))
    ensures !(IsComplexEditor(hostname, e) && e.isContentEditable) && !IsTextField(e) ==> (ok <==> b.insertTextOk)
  {
    if IsComplexEditor(hostname, e) && e.isContentEditable then InsertTextWorks(b) || PasteWorks(b)
    else if IsTextField(e) then true
    else b.insertTextOk
  }

  /** The method label insertTextIntoElement reports. */
  function InsertMethod(hostname: string, e: Element, b: Browser): (m: string)
    ensures m in {"execCommand-complex", "clipboard-complex", "complex-failed",
                  "native-setter", "direct-value", "generic-exec", "unknown"}
    ensures IsComplexEditor(hostname, e) && e.isContentEditable ==>
              (m == "execCommand-complex" <==> InsertTextWorks(b)) &&
              (m == "clipboard-complex" <==> !InsertTextWorks(b) && PasteWorks(b)) &&
              (m == "complex-failed" <==> !InsertTextWorks(b) && !PasteWorks(b))
    ensures !(IsComplexEditor(hostname, e) && e.isContentEditable) && IsTextField(e) ==>
              m in {"native-setter", "direct-value"} && (m == "native-setter" <==> e.hasNativeSetter)
    ensures !(IsComplexEditor(hostname, e) && e.isContentEditable) && !IsTextField(e) ==>
              m in {"generic-exec", "unknown"} && (m == "generic-exec" <==> b.insertTextOk)
  {
    if IsComplexEditor(hostname, e) && e.isContentEditable then
      if InsertTextWorks(b) then "execCommand-complex"
      else if PasteWorks(b) then "clipboard-complex"
      else "complex-failed"
    else if IsTextField(e) then
      if e.hasNativeSetter then "native-setter" else "direct-value"
    else if b.insertTextOk then "generic-exec"
    else "unknown"
  }

  /** A label names its outcome: the failure labels are exactly the unsuccessful results. */
  lemma InsertLabels(hostname: string, e: Element, b: Browser)
    ensures InsertMethod(hostname, e, b) in {"complex-failed", "unknown"} <==> !InsertSucceeds(hostname, e, b)
  {
  }

  /** Focus, select all, a pause of `ms`, then `command`. */
  function Attempt(ms: nat, command: Effect): seq<Effect> {
    [Focus, SelectAll, Wait(ms), command]
  }

  /** The input and change events, when `fired`. */
  function Events(fired: bool): seq<Effect> {
    if fired then [DispatchInput, DispatchChange] else []
  }

  /** The effects of the clipboard fallback: none when writing the text rejects; otherwise a paste, with the events when it worked. */
  function PasteLog(b: Browser): seq<Effect> {
    if b.clipboardWriteOk then Attempt(20, Paste) + Events(b.pasteOk) else []
  }

  /**
    The clipboard after the fallback, from what it held `before`: the
    translation once written, put back to `before` when the read gave a
    non-empty text.
   */
  function PasteClipboard(text: string, b: Browser, before: string): (after: string)
    ensures after == before || after == text
    ensures b.clipboardWriteOk && !(b.clipboardReadOk && before != "") ==> after == text
    ensures !b.clipboardWriteOk || (b.clipboardReadOk && before != "") ==> after == before
  {
    if b.clipboardWriteOk && !(b.clipboardReadOk && before != "") then text else before
  }

  /** The effects of the complex branch: insertText, its events when it returned true, then the fallback unless the text took. */
  function ComplexLog(text: string, b: Browser): seq<Effect> {
    Attempt(20, InsertText(text)) + Events(b.insertTextOk) + (if InsertTextWorks(b) then [] else PasteLog(b))
  }

  /** The effects of insertTextIntoElement, branch by branch; each begins by focusing the element. */
  function InsertLog(hostname: string, e: Element, text: string, b: Browser): (log: seq<Effect>)
    ensures |log| >= 4 && log[0] == Focus
  {
    if IsComplexEditor(hostname, e) && e.isContentEditable then ComplexLog(text, b)
    else if IsTextField(e) then [Focus, SetValue(text, e.hasNativeSetter)] + Events(true)
    else Attempt(10, InsertText(text))
  }

  /**
    The clipboard after insertTextIntoElement, from what it held `before`.
    Only the complex branch's fallback touches it.  It changes only to the
    translation, and only when the text was written and the original could
    not be read or was empty; a read that gave a non-empty text leaves it
    as it was.
   */
  function InsertClipboard(hostname: string, e: Element, text: string, b: Browser, before: string): (after: string)
    ensures after == before ||
            (after == text && IsComplexEditor(hostname, e) && e.isContentEditable && !InsertTextWorks(b) &&
             b.clipboardWriteOk && !(b.clipboardReadOk && before != ""))
    ensures b.clipboardReadOk && before != "" ==> after == before
    ensures (IsComplexEditor(hostname, e) && e.isContentEditable && !InsertTextWorks(b) &&
             b.clipboardWriteOk && !(b.clipboardReadOk && before != "")) ==> after == text
  {
    if IsComplexEditor(hostname, e) && e.isContentEditable && !InsertTextWorks(b) then PasteClipboard(text, b, before)
    else before
  }

  /** The commands of the fallback: a paste exactly when the text reached the clipboard. */
  lemma PasteCommands(b: Browser)
    ensures Commands(PasteLog(b)) == if b.clipboardWriteOk then [Paste] else []
  {
    if b.clipboardWriteOk {
      CommandsOfAttempt(20, Paste);
      CommandsAppend(Attempt(20, Paste), Events(b.pasteOk));
    }
  }

  /** The complex branch tries insertText, then the paste only when insertText did not take and the clipboard was written. */
  lemma ComplexCommands(text: string, b: Browser)
    ensures Commands(ComplexLog(text, b)) ==
              if InsertTextWorks(b) || !b.clipboardWriteOk then [InsertText(text)] else [InsertText(text), Paste]
  {
    var first := Attempt(20, InsertText(text));
    var events := Events(b.insertTextOk);
    var rest := if InsertTextWorks(b) then [] else PasteLog(b);
    CommandsOfAttempt(20, InsertText(text));
    assert Commands(events) == [];
    CommandsAppend(first, events);
    assert Commands(first + events) == [InsertText(text)];
    PasteCommands(b);
    assert Commands(rest) == if InsertTextWorks(b) || !b.clipboardWriteOk then [] else [Paste];
    CommandsAppend(first + events, rest);
    assert ComplexLog(text, b) == first + events + rest;
  }

  /** Inserting acts on the element only: no notification, no message. */
  lemma InsertLogEditing(hostname: string, e: Element, text: string, b: Browser)
    ensures EditingOnly(InsertLog(hostname, e, text, b))
  {
    if IsComplexEditor(hostname, e) && e.isContentEditable {
      EditingAttempt(20, InsertText(text));
      EditingAttempt(20, Paste);
      EditingOnlyAppend(Attempt(20, InsertText(text)), Events(b.insertTextOk));
      EditingOnlyAppend(Attempt(20, Paste), Events(b.pasteOk));
      EditingOnlyAppend(Attempt(20, InsertText(text)) + Events(b.insertTextOk),
                        if InsertTextWorks(b) then [] else PasteLog(b));
    }
  }

  /** Every branch writes the text into the element: by insertText, or by setting the value. */
  lemma InsertLogWrites(hostname: string, e: Element, text: string, b: Browser)
    ensures var log := InsertLog(hostname, e, text, b);
            exists i :: 0 <= i < |log| && (log[i] == InsertText(text) || log[i] == SetValue(text, e.hasNativeSetter))
  {
    var log := InsertLog(hostname, e, text, b);
    if (IsComplexEditor(hostname, e) && e.isContentEditable) || !IsTextField(e) {
      assert log[3] == InsertText(text);
    } else {
      assert log[1] == SetValue(text, e.hasNativeSetter);
    }
  }

  /**
    Input and change events are fired exactly when a command took: in the
    complex branch when insertText returned true or the paste worked, in a
    text field always, elsewhere never.
   */
  lemma InsertLogEvents(hostname: string, e: Element, text: string, b: Browser)
    ensures Dispatches(InsertLog(hostname, e, text, b)) <==>
              if IsComplexEditor(hostname, e) && e.isContentEditable then b.insertTextOk || PasteWorks(b)
              else IsTextField(e)
  {
    var log := InsertLog(hostname, e, text, b);
    if IsComplexEditor(hostname, e) && e.isContentEditable {
      var rest := if InsertTextWorks(b) then [] else PasteLog(b);
      assert log == Attempt(20, InsertText(text)) + Events(b.insertTextOk) + rest;
      if b.insertTextOk {
        assert log[4] == DispatchInput;
      } else if PasteWorks(b) {
        assert log[8] == DispatchInput;
      } else {
        assert log == Attempt(20, InsertText(text)) + (if b.clipboardWriteOk then Attempt(20, Paste) else []);
        assert !Dispatches(log);
      }
    } else if IsTextField(e) {
      assert log[2] == DispatchInput;
    }
  }

  // ---------------------------------------------------------------------
  // The two translation flows
  // ---------------------------------------------------------------------

  /** The notification that ends a delivery: success, the clipboard copy, or the failure when the copy rejects. */
  function DeliverNote(succeeded: bool, copyOk: bool, targetLanguage: string): (note: Effect)
    ensures note.Notify?
    ensures note.kind == SuccessNote <==> succeeded
    ensures note.kind == ErrorNote <==> !succeeded && !copyOk
  {
    if succeeded then Notify(TranslatedNote(targetLanguage), SuccessNote)
    else if copyOk then Notify(CopiedNote, WarningNote)
    else Notify(InputFailedNote, ErrorNote)
  }

  /** The clipboard after a delivery: the translation when the insertion failed and the copy worked, otherwise as the insertion left it. */
  function DeliveredClipboard(hostname: string, e: Element, translated: string, b: Browser, copyOk: bool,
                              before: string): string {
    if !InsertSucceeds(hostname, e, b) && copyOk then translated else InsertClipboard(hostname, e, translated, b, before)
  }

  /** The name of the write language, English when the code is unknown. */
  function WriteLanguage(languages: seq<Language>, config: TranslatorConfig): string {
    LanguageName(languages, config.writeLanguage, "English")
  }

  /** The message of the input flow: the element's text in the write language. */
  function InputSend(languages: seq<Language>, e: Element, config: TranslatorConfig): Effect {
    SendTranslate(Message(InputText(e), WriteLanguage(languages, config), config))
  }

  /**
    The effects of the input flow once the checks passed: the message, then
    either the failure notice or the insertion and its notice.
   */
  function SendEffects(hostname: string, languages: seq<Language>, e: Element, config: TranslatorConfig,
                       reply: Result<string, string>, b: Browser, copyOk: bool): (log: seq<Effect>)
    ensures |log| >= 2 && log[0] == InputSend(languages, e, config) && log[|log| - 1].Notify?
  {
    match reply
    case Failure(_) => [InputSend(languages, e, config), Notify(InputFailedNote, ErrorNote)]
    case Success(translated) =>
      [InputSend(languages, e, config)] + InsertLog(hostname, e, translated, b) +
      [DeliverNote(InsertSucceeds(hostname, e, b), copyOk, WriteLanguage(languages, config))]
  }

  /**
    The effects of handleInputTranslation: a notice alone for blank text or
    a missing model; otherwise those of `SendEffects`.  Every run ends with
    a notification.
   */
  function InputEffects(hostname: string, languages: seq<Language>, e: Element, config: TranslatorConfig,
                        reply: Result<string, string>, b: Browser, copyOk: bool): (log: seq<Effect>)
    ensures |log| >= 1 && log[|log| - 1].Notify?
  {
    if JsString.Trim(InputText(e)) == "" then [Notify(NoTextNote, ErrorNote)]
    else if config.selectedModel == "" then [Notify(NoModelNote, ErrorNote)]
    else SendEffects(hostname, languages, e, config, reply, b, copyOk)
  }

  /**
    The input flow sends a message exactly when the text is not blank and
    a model is selected, and the message comes first.
   */
  lemma InputEffectsSend(hostname: string, languages: seq<Language>, e: Element, config: TranslatorConfig,
                         reply: Result<string, string>, b: Browser, copyOk: bool)
    ensures var log := InputEffects(hostname, languages, e, config, reply, b, copyOk);
            Sends(log) <==> JsString.Trim(InputText(e)) != "" && config.selectedModel != ""
    ensures var log := InputEffects(hostname, languages, e, config, reply, b, copyOk);
            Sends(log) ==> log[0] == InputSend(languages, e, config)
  {
    var log := InputEffects(hostname, languages, e, config, reply, b, copyOk);
    if JsString.Trim(InputText(e)) != "" && config.selectedModel != "" {
      assert log[0].SendTranslate?;
    } else {
      assert |log| == 1 && log[0].Notify?;
    }
  }

  /** A delivered translation that could not be inserted but was copied ends on the clipboard. */
  lemma DeliveredToClipboard(hostname: string, e: Element, translated: string, b: Browser, copyOk: bool, before: string)
    requires !InsertSucceeds(hostname, e, b) && copyOk
    ensures DeliveredClipboard(hostname, e, translated, b, copyOk, before) == translated
    ensures DeliverNote(InsertSucceeds(hostname, e, b), copyOk, "") == Notify(CopiedNote, WarningNote)
  {
  }

  /** The read language's name, Spanish when the code is unknown. */
  function ReadLanguage(languages: seq<Language>, config: TranslatorConfig): string {
    LanguageName(languages, config.readLanguage, "Spanish")
  }

  /**
    The effects of handleSelectionTranslation: nothing for an empty
    selection, a notice for a missing model, otherwise the message,
    followed by the failure notice when the reply failed.
   */
  function SelectionEffects(languages: seq<Language>, selection: Option<string>, config: TranslatorConfig,
                            reply: Result<string, string>): (log: seq<Effect>)
    ensures log == [] <==> SelectedText(selection) == ""
  {
    if SelectedText(selection) == "" then []
    else if config.selectedModel == "" then [Notify(SelectModelNote, ErrorNote)]
    else [SendTranslate(Message(SelectedText(selection), ReadLanguage(languages, config), config))] +
         (if reply.Failure? then [Notify(SelectionFailedNote, ErrorNote)] else [])
  }

  /** The selection flow sends a message exactly when something is selected and a model is chosen. */
  lemma SelectionEffectsSend(languages: seq<Language>, selection: Option<string>, config: TranslatorConfig,
                             reply: Result<string, string>)
    ensures Sends(SelectionEffects(languages, selection, config, reply)) <==>
              SelectedText(selection) != "" && config.selectedModel != ""
  {
    var log := SelectionEffects(languages, selection, config, reply);
    if SelectedText(selection) != "" && config.selectedModel != "" {
      assert log[0].SendTranslate?;
    } else if SelectedText(selection) != "" {
      assert log == [Notify(SelectModelNote, ErrorNote)];
    }
  }

  /**
    Where handleKeyDown sends a key press: Escape with a popup on screen
    closes it; otherwise Alt+t or Alt+T goes to the input flow when the
    active element is an input, a text area or editable, and to the
    selection flow when it is not; every other key is ignored.
   */
  function KeyRoute(key: string, altKey: bool, popupShown: bool, active: Option<Element>): Route {
    if key == "Escape" && popupShown then ClosedPopup
    else if altKey && (key == "t" || key == "T") then
      if active.Some? && IsEditable(active.value) then InputPath else SelectionPath
    else Ignored
  }

  /**
    Escape closes only when a popup is shown, and Escape is never the
    shortcut; the shortcut is Alt with t in either case, and the active
    element alone picks the flow.
   */
  lemma KeyRouteCases(key: string, altKey: bool, popupShown: bool, active: Option<Element>)
    ensures KeyRoute(key, altKey, popupShown, active) == ClosedPopup <==> key == "Escape" && popupShown
    ensures KeyRoute(key, altKey, popupShown, active) in {InputPath, SelectionPath} <==>
              altKey && (key == "t" || key == "T")
    ensures KeyRoute(key, altKey, popupShown, active) == InputPath <==>
              altKey && (key == "t" || key == "T") && active.Some? && IsEditable(active.value)
    ensures key == "Escape" && !popupShown ==> KeyRoute(key, altKey, popupShown, active) == Ignored
  {
  }

  /**
    The effects of the Alt+T shortcut: the key is taken, then the input
    flow runs for an input, a text area or an editable element, and the
    selection flow otherwise.
   */
  function ShortcutEffects(hostname: string, languages: seq<Language>, active: Option<Element>,
                           selection: Option<string>, config: TranslatorConfig, reply: Result<string, string>,
                           b: Browser, copyOk: bool): (log: seq<Effect>)
    ensures |log| >= 2 && log[..2] == [PreventDefault, StopPropagation]
  {
    [PreventDefault, StopPropagation] +
    if active.Some? && IsEditable(active.value) then InputEffects(hostname, languages, active.value, config, reply, b, copyOk)
    else SelectionEffects(languages, selection, config, reply)
  }

  /**
    The shortcut reaches the background worker exactly when a model is
    selected and the flow it picked has text: a non-blank input, or a
    non-empty selection.  With no editable element focused and nothing
    selected, taking the key is all that happens.
   */
  lemma ShortcutSends(hostname: string, languages: seq<Language>, active: Option<Element>,
                      selection: Option<string>, config: TranslatorConfig, reply: Result<string, string>,
                      b: Browser, copyOk: bool)
    ensures Sends(ShortcutEffects(hostname, languages, active, selection, config, reply, b, copyOk)) <==>
              config.selectedModel != "" &&
              if active.Some? && IsEditable(active.value) then JsString.Trim(InputText(active.value)) != ""
              else SelectedText(selection) != ""
    ensures !(active.Some? && IsEditable(active.value)) && SelectedText(selection) == "" ==>
              ShortcutEffects(hostname, languages, active, selection, config, reply, b, copyOk) ==
                [PreventDefault, StopPropagation]
  {
    if active.Some? && IsEditable(active.value) {
      InputEffectsSend(hostname, languages, active.value, config, reply, b, copyOk);
      SendsAfterKeys(InputEffects(hostname, languages, active.value, config, reply, b, copyOk));
    } else {
      SelectionEffectsSend(languages, selection, config, reply);
      SendsAfterKeys(SelectionEffects(languages, selection, config, reply));
    }
  }

  lemma Associate(a: seq<Effect>, b: seq<Effect>, c: seq<Effect>)
    ensures (a + b) + c == a + (b + c)
  {
  }

  /** Taking the key press sends nothing by itself. */
  lemma SendsAfterKeys(log: seq<Effect>)
    ensures Sends([PreventDefault, StopPropagation] + log) <==> Sends(log)
  {
    var all := [PreventDefault, StopPropagation] + log;
    if Sends(all) {
      var i :| 0 <= i < |all| && all[i].SendTranslate?;
      assert log[i - 2] == all[i];
    }
    if Sends(log) {
      var i :| 0 <= i < |log| && log[i].SendTranslate?;
      assert all[i + 2] == log[i];
    }
  }

  // ---------------------------------------------------------------------
  // The page
  // ---------------------------------------------------------------------

  /** The browser page the content script runs in. */
  class Page {
    /** `window.location.hostname`. */
    const hostname: string
    /** The language table the lookups use. */
    const languages: seq<Language>
    /** `currentPopup`. */
    var popup: Option<Popup>
    /** `progressInterval`. */
    var timer: Option<Timer>
    /** `isPaused`: reset and read, never set. */
    var isPaused: bool
    /** The system clipboard. */
    var clipboard: string
    /** What the script has done so far, in order. */
    var effects: seq<Effect>

    /** An interval only runs for a translation popup, and lasts at least two seconds. */
    predicate Valid()
      reads this`popup, this`timer
    {
      timer.Some? ==> popup.Some? && popup.value.Translation? && timer.value.readingTime >= 2000.0
    }

    constructor(hostname: string, clipboard: string)
      ensures this.hostname == hostname && this.clipboard == clipboard && languages == SupportedLanguages
      ensures popup.None? && timer.None? && !isPaused && effects == []
      ensures Valid()
    {
      this.hostname := hostname;
      languages := SupportedLanguages;
      this.clipboard := clipboard;
      popup := None;
      timer := None;
      isPaused := false;
      effects := [];
    }

    /** removePopup: no popup, no interval, not paused; whatever the state was, so twice is once. */
    method RemovePopup()
      modifies this`popup, this`timer, this`isPaused
      ensures popup.None? && timer.None? && !isPaused
      ensures Valid()
    {
      popup := None;
      timer := None;
      isPaused := false;
    }

    /** showLoading: replaces whatever popup there was by the loading indicator. */
    method ShowLoading()
      modifies this`popup, this`timer, this`isPaused
      ensures popup == Some(Loading) && timer.None? && !isPaused
      ensures Valid()
    {
      RemovePopup();
      popup := Some(Loading);
    }

    /**
      showTranslation at time `now`: replaces whatever popup there was by
      the translation, with an interval that closes it after its reading
      time.
     */
    method ShowTranslation(text: string, now: int)
      modifies this`popup, this`timer, this`isPaused
      ensures popup == Some(Translation(text)) && timer == Some(Timer(now, ReadingTime(text))) && !isPaused
      ensures Valid()
    {
      RemovePopup();
      popup := Some(Translation(text));
      timer := Some(Timer(now, ReadingTime(text)));
    }

    /**
      One run of the interval callback at time `now`: nothing while paused;
      otherwise the popup is removed once the remaining percentage
      `100 - elapsed / readingTime * 100` has reached zero.  Elapsed time
      counts from the fixed start.
     */
    method Tick(now: int)
      requires Valid()
      modifies this`popup, this`timer, this`isPaused
      ensures Valid()
      ensures old(timer).None? || old(isPaused) ==> unchanged(this)
      ensures old(timer).Some? && !old(isPaused) ==>
                if (now - old(timer).value.start) as real >= old(timer).value.readingTime
                then popup.None? && timer.None? && !isPaused
                else unchanged(this)
    {
      if timer.None? || isPaused {
        return;
      }
      var t := timer.value;
      var elapsed := (now - t.start) as real;
      var pct := 100.0 - (elapsed / t.readingTime) * 100.0;
      PercentGone(elapsed, t.readingTime);
      if pct <= 0.0 {
        RemovePopup();
      }
    }

    /**
      The clipboard fallback of the complex branch: read the clipboard
      (an empty string when that rejects), write the text to it, select
      everything and paste, then write the original back when it was not
      empty.  When writing the text rejects, nothing else happens.
     */
    method PasteFallback(text: string, browser: Browser) returns (pasted: bool, log: seq<Effect>)
      modifies this`clipboard
      ensures pasted == PasteWorks(browser)
      ensures log == PasteLog(browser)
      ensures clipboard == PasteClipboard(text, browser, old(clipboard))
    {
      var original := if browser.clipboardReadOk then clipboard else "";
      if !browser.clipboardWriteOk {
        return false, [];
      }
      clipboard := text;
      log := [Focus, SelectAll, Wait(20), Paste];
      if original != "" {
        clipboard := original;
      }
      pasted := browser.pasteOk;
      if pasted {
        log := log + [DispatchInput, DispatchChange];
      }
    }

    /**
      The complex-editor branch: select everything and insertText; when
      that fails or leaves only whitespace, the clipboard fallback.
     */
    method InsertComplex(text: string, browser: Browser) returns (result: InsertResult, log: seq<Effect>)
      modifies this`clipboard
      ensures result.success == (InsertTextWorks(browser) || PasteWorks(browser))
      ensures result.methodName ==
                if InsertTextWorks(browser) then "execCommand-complex"
                else if PasteWorks(browser) then "clipboard-complex"
                else "complex-failed"
      ensures log == ComplexLog(text, browser)
      ensures clipboard == if InsertTextWorks(browser) then old(clipboard) else PasteClipboard(text, browser, old(clipboard))
    {
      log := [Focus, SelectAll, Wait(20), InsertText(text)];
      if browser.insertTextOk {
        log := log + [DispatchInput, DispatchChange];
      }
      if InsertTextWorks(browser) {
        result := InsertResult(true, "execCommand-complex");
        assert log == log + [];
      } else {
        var pasted, fallback := PasteFallback(text, browser);
        result := InsertResult(pasted, if pasted then "clipboard-complex" else "complex-failed");
        log := log + fallback;
      }
    }

    /**
      insertTextIntoElement, with three branches.  On a complex editor that
      is editable: select everything and insertText, then, if that did not
      leave text behind, paste through the clipboard and put the user's
      clipboard back when it held something.  In an input or text area:
      set the value and fire input and change.  Anywhere else: select
      everything and insertText, with no events.
     */
    method InsertTextIntoElement(element: Element, text: string, browser: Browser) returns (result: InsertResult)
      modifies this`clipboard, this`effects
      ensures result == InsertResult(InsertSucceeds(hostname, element, browser), InsertMethod(hostname, element, browser))
      ensures effects == old(effects) + InsertLog(hostname, element, text, browser)
      ensures clipboard == InsertClipboard(hostname, element, text, browser, old(clipboard))
    {
      var log: seq<Effect>;
      if IsComplexEditor(hostname, element) && element.isContentEditable {
        result, log := InsertComplex(text, browser);
      } else if IsTextField(element) {
        log := [Focus, SetValue(text, element.hasNativeSetter), DispatchInput, DispatchChange];
        result := InsertResult(true, if element.hasNativeSetter then "native-setter" else "direct-value");
      } else {
        log := [Focus, SelectAll, Wait(10), InsertText(text)];
        result := InsertResult(browser.insertTextOk, if browser.insertTextOk then "generic-exec" else "unknown");
      }
      effects := effects + log;
    }

    /**
      The end of handleInputTranslation once the translation is back: the
      popup goes, the text is inserted, and the outcome is notified; when
      insertion fails the translation is copied to the clipboard instead,
      and when that copy rejects the generic failure is notified.
     */
    method DeliverInput(element: Element, translated: string, targetLanguage: string, browser: Browser, copyOk: bool)
      modifies this`popup, this`timer, this`isPaused, this`clipboard, this`effects
      ensures popup.None? && timer.None? && !isPaused
      ensures effects == old(effects) + InsertLog(hostname, element, translated, browser) +
                         [DeliverNote(InsertSucceeds(hostname, element, browser), copyOk, targetLanguage)]
      ensures clipboard == DeliveredClipboard(hostname, element, translated, browser, copyOk, old(clipboard))
    {
      RemovePopup();
      var result := InsertTextIntoElement(element, translated, browser);
      var note: Effect;
      if result.success {
        note := Notify(TranslatedNote(targetLanguage), SuccessNote);
      } else if copyOk {
        clipboard := translated;
        note := Notify(CopiedNote, WarningNote);
      } else {
        note := Notify(InputFailedNote, ErrorNote);
      }
      effects := effects + [note];
    }

    /**
      handleInputTranslation for `element`: blank text is refused with a
      notification; otherwise the loading popup goes up, and without a
      selected model the script stops there, leaving it up.  Otherwise the
      text goes to the background worker in the write language (English
      when the code is unknown), and its answer is delivered into the
      element.  `store` and `readFails` give the configuration, `reply` the
      worker's answer.
     */
    method HandleInputTranslation(element: Element, store: Storage.Store, readFails: bool,
                                  reply: Result<string, string>, browser: Browser, copyOk: bool)
      requires Valid()
      modifies this`popup, this`timer, this`isPaused, this`clipboard, this`effects
      ensures Valid()
      ensures effects == old(effects) + InputEffects(hostname, languages, element, store.GetConfig(readFails),
                                                     reply, browser, copyOk)
      ensures JsString.Trim(InputText(element)) == "" ==>
                popup == old(popup) && timer == old(timer) && isPaused == old(isPaused)
      ensures JsString.Trim(InputText(element)) != "" ==>
                timer.None? && !isPaused &&
                popup == if store.GetConfig(readFails).selectedModel != "" && reply.Success? then None else Some(Loading)
      ensures clipboard ==
                if JsString.Trim(InputText(element)) != "" && store.GetConfig(readFails).selectedModel != "" &&
                   reply.Success?
                then DeliveredClipboard(hostname, element, reply.value, browser, copyOk, old(clipboard))
                else old(clipboard)
    {
      var text := InputText(element);
      if JsString.Trim(text) == "" {
        effects := effects + [Notify(NoTextNote, ErrorNote)];
        return;
      }
      ShowLoading();
      var config := store.GetConfig(readFails);
      if config.selectedModel == "" {
        effects := effects + [Notify(NoModelNote, ErrorNote)];
        return;
      }
      SendInput(element, config, reply, browser, copyOk);
    }

    /**
      The part of handleInputTranslation after the checks: the text goes
      to the background worker with the configuration's model and server
      and the write language's name (English when the code is unknown);
      a failed reply is notified and leaves the loading popup up, a
      successful one is delivered into the element.
     */
    method SendInput(element: Element, config: TranslatorConfig, reply: Result<string, string>,
                     browser: Browser, copyOk: bool)
      requires popup == Some(Loading) && timer.None? && !isPaused
      modifies this`popup, this`timer, this`isPaused, this`clipboard, this`effects
      ensures timer.None? && !isPaused
      ensures effects == old(effects) + SendEffects(hostname, languages, element, config, reply, browser, copyOk)
      ensures popup == if reply.Success? then None else Some(Loading)
      ensures clipboard ==
                if reply.Success? then DeliveredClipboard(hostname, element, reply.value, browser, copyOk, old(clipboard))
                else old(clipboard)
    {
      var targetLanguage := LanguageName(languages, config.writeLanguage, "English");
      var send := SendTranslate(TranslateMessage(InputText(element), targetLanguage, config.selectedModel,
                                                 config.ollamaHost, config.ollamaPort));
      effects := effects + [send];
      match reply {
        case Failure(_) =>
          effects := effects + [Notify(InputFailedNote, ErrorNote)];
        case Success(translated) =>
          DeliverInput(element, translated, targetLanguage, browser, copyOk);
      }
    }

    /**
      handleSelectionTranslation for the selected text `selection` (None
      when there is no selection): an empty trimmed selection does
      nothing; otherwise the loading popup goes up, and without a selected
      model the script stops there, leaving it up.  Otherwise the trimmed
      text goes to the background worker in the read language (Spanish
      when the code is unknown) and the answer is shown at time `now`.
     */
    method HandleSelectionTranslation(selection: Option<string>, store: Storage.Store, readFails: bool,
                                      reply: Result<string, string>, now: int)
      requires Valid()
      modifies this`popup, this`timer, this`isPaused, this`effects
      ensures Valid()
      ensures effects == old(effects) + SelectionEffects(languages, selection, store.GetConfig(readFails), reply)
      ensures SelectedText(selection) == "" ==> popup == old(popup) && timer == old(timer) && isPaused == old(isPaused)
      ensures SelectedText(selection) != "" ==>
                !isPaused &&
                if store.GetConfig(readFails).selectedModel != "" && reply.Success?
                then popup == Some(Translation(reply.value)) && timer == Some(Timer(now, ReadingTime(reply.value)))
                else popup == Some(Loading) && timer.None?
    {
      var text := SelectedText(selection);
      if text == "" {
        return;
      }
      ShowLoading();
      var config := store.GetConfig(readFails);
      if config.selectedModel == "" {
        effects := effects + [Notify(SelectModelNote, ErrorNote)];
        return;
      }
      var targetLanguage := LanguageName(languages, config.readLanguage, "Spanish");
      effects := effects + [SendTranslate(Message(text, targetLanguage, config))];
      match reply {
        case Failure(_) =>
          effects := effects + [Notify(SelectionFailedNote, ErrorNote)];
        case Success(translated) =>
          ShowTranslation(translated, now);
      }
    }

    /**
      handleKeyDown: Escape with a popup on screen only closes it.
      Otherwise Alt+t or Alt+T is taken (default prevented, propagation
      stopped) and goes to the input flow when the active element is an
      input, a text area or editable, and to the selection flow when it is
      not.  Every other key is ignored.  The route taken is returned.
      A message reaches the background worker exactly when the flow taken
      had non-blank text and a model was selected; with nothing to
      translate, taking the key is all that happens.
     */
    method HandleKeyDown(key: string, altKey: bool, active: Option<Element>, selection: Option<string>,
                         store: Storage.Store, readFails: bool, reply: Result<string, string>,
                         browser: Browser, copyOk: bool, now: int)
      returns (route: Route)
      requires Valid()
      modifies this`popup, this`timer, this`isPaused, this`clipboard, this`effects
      ensures Valid()
      ensures route == KeyRoute(key, altKey, old(popup).Some?, active)
      ensures route == ClosedPopup ==>
                popup.None? && timer.None? && !isPaused && effects == old(effects) && clipboard == old(clipboard)
      ensures route == Ignored ==>
                popup == old(popup) && timer == old(timer) && isPaused == old(isPaused) &&
                clipboard == old(clipboard) && effects == old(effects)
      ensures route == InputPath || route == SelectionPath ==>
                effects == old(effects) + ShortcutEffects(hostname, languages, active, selection,
                                                          store.GetConfig(readFails), reply, browser, copyOk)
      ensures (route == InputPath && JsString.Trim(InputText(active.value)) == "") ||
              (route == SelectionPath && SelectedText(selection) == "") ==>
                popup == old(popup) && timer == old(timer) && isPaused == old(isPaused) && clipboard == old(clipboard)
      ensures route == InputPath && JsString.Trim(InputText(active.value)) != "" ==>
                timer.None? && !isPaused &&
                popup == if store.GetConfig(readFails).selectedModel != "" && reply.Success? then None else Some(Loading)
      ensures route == InputPath ==>
                clipboard ==
                  if JsString.Trim(InputText(active.value)) != "" && store.GetConfig(readFails).selectedModel != "" &&
                     reply.Success?
                  then DeliveredClipboard(hostname, active.value, reply.value, browser, copyOk, old(clipboard))
                  else old(clipboard)
      ensures route == SelectionPath && SelectedText(selection) != "" ==>
                !isPaused &&
                if store.GetConfig(readFails).selectedModel != "" && reply.Success?
                then popup == Some(Translation(reply.value)) && timer == Some(Timer(now, ReadingTime(reply.value)))
                else popup == Some(Loading) && timer.None?
      ensures route == SelectionPath ==> clipboard == old(clipboard)
    {
      if key == "Escape" && popup.Some? {
        RemovePopup();
        return ClosedPopup;
      }
      if altKey && (key == "t" || key == "T") {
        route := TranslateShortcut(active, selection, store, readFails, reply, browser, copyOk, now);
        return;
      }
      route := Ignored;
    }

    /**
      The Alt+T shortcut: the default is prevented and propagation
      stopped, then the input flow runs for an input, a text area or an
      editable element, and the selection flow otherwise.
     */
    method TranslateShortcut(active: Option<Element>, selection: Option<string>, store: Storage.Store, readFails: bool,
                             reply: Result<string, string>, browser: Browser, copyOk: bool, now: int)
      returns (route: Route)
      requires Valid()
      modifies this`popup, this`timer, this`isPaused, this`clipboard, this`effects
      ensures Valid()
      ensures route == if active.Some? && IsEditable(active.value) then InputPath else SelectionPath
      ensures effects == old(effects) + ShortcutEffects(hostname, languages, active, selection,
                                                        store.GetConfig(readFails), reply, browser, copyOk)
      ensures (route == InputPath && JsString.Trim(InputText(active.value)) == "") ||
              (route == SelectionPath && SelectedText(selection) == "") ==>
                popup == old(popup) && timer == old(timer) && isPaused == old(isPaused) && clipboard == old(clipboard)
      ensures route == InputPath && JsString.Trim(InputText(active.value)) != "" ==>
                timer.None? && !isPaused &&
                popup == if store.GetConfig(readFails).selectedModel != "" && reply.Success? then None else Some(Loading)
      ensures route == InputPath ==>
                clipboard ==
                  if JsString.Trim(InputText(active.value)) != "" && store.GetConfig(readFails).selectedModel != "" &&
                     reply.Success?
                  then DeliveredClipboard(hostname, active.value, reply.value, browser, copyOk, old(clipboard))
                  else old(clipboard)
      ensures route == SelectionPath && SelectedText(selection) != "" ==>
                !isPaused &&
                if store.GetConfig(readFails).selectedModel != "" && reply.Success?
                then popup == Some(Translation(reply.value)) && timer == Some(Timer(now, ReadingTime(reply.value)))
                else popup == Some(Loading) && timer.None?
      ensures route == SelectionPath ==> clipboard == old(clipboard)
    {
      effects := effects + [PreventDefault, StopPropagation];
      ghost var config := store.GetConfig(readFails);
      if active.Some? && IsEditable(active.value) {
        HandleInputTranslation(active.value, store, readFails, reply, browser, copyOk);
        route := InputPath;
        Associate(old(effects), [PreventDefault, StopPropagation],
                  InputEffects(hostname, languages, active.value, config, reply, browser, copyOk));
      } else {
        HandleSelectionTranslation(selection, store, readFails, reply, now);
        route := SelectionPath;
        Associate(old(effects), [PreventDefault, StopPropagation], SelectionEffects(languages, selection, config, reply));
      }
    }
  }

  /** The remaining percentage reaches zero exactly when the elapsed time reaches the reading time. */
  lemma PercentGone(elapsed: real, readingTime: real)
    requires readingTime > 0.0
    ensures 100.0 - (elapsed / readingTime) * 100.0 <= 0.0 <==> elapsed >= readingTime
  {
    assert (elapsed / readingTime) * readingTime == elapsed;
    if elapsed >= readingTime {
      assert elapsed / readingTime >= 1.0;
    } else {
      assert elapsed / readingTime < 1.0;
    }
  }
}
