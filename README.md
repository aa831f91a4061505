# Ollama Translator: a verified model of its core

This project models the core of a browser extension that translates text through a local
Ollama server. It covers the parts of the extension that follow fixed rules:

- **The content script** (`src/content/content.tsx`):
  - The reading-time budget of a translation popup.
  - The test for complex chat editors (WhatsApp Web, Telegram Web).
  - The single popup with its auto-close interval.
  - The three ways a translation is put into an editable element.
  - The Alt+T / Escape keyboard routing into the input flow and the selection flow, with the
    guards that run before any message reaches the background worker.
- **The configuration store** (`src/services/storage.ts`):
  - One record kept under a fixed key, read back merged over the defaults.
  - Partial updates of that record.
- **The Ollama client** (`src/services/ollama.ts`):
  - The base URL and the two requests it sends.
  - How each possible outcome of `fetch` becomes a result or an error.
- **The shared data** (`src/lib/types.ts`): the 30 supported languages and the default
  configuration.
- **The icon writer** (`generate-icons.js`): a small PNG encoder. It covers:
  - the table-driven CRC-32 of ISO 3309 (section 5.5 of the PNG Specification, 2nd ed.);
  - the chunk layout (section 5.3);
  - the IHDR payload (section 11.2.2);
  - filter-type-0 scanlines (section 7.3);
  - the file layout: signature, IHDR, IDAT, IEND.

## How the model is built

**Modules.** The Dafny modules follow the source files:
- `Wrappers`: Option and Result.
- `JsString`: the JavaScript string operations the code relies on: `trim`, `split(/\s+/)`,
  `includes` and `String(n)`.
- `Types`: `types.ts`.
- `Storage`: `storage.ts`.
- `Ollama`: `ollama.ts`.
- `Content`: `content.tsx`.
- `Crc` and `Png`: `generate-icons.js`.

**State that changes in place** is modelled with classes:
- `Storage.Store` holds the browser's storage area as a `map` field.
- `Content.Page` holds the content script's module-level variables `currentPopup`,
  `progressInterval` and `isPaused`. It also holds the clipboard and a log of the effects the
  script has on the page: focus, `execCommand` calls, events, notifications and messages to the
  background worker.

**Effects and the log.** The handlers of `Page` and `InsertTextIntoElement` append to that
log. `PasteFallback` and `InsertComplex` return their effects for the caller to append.
`RemovePopup`, `ShowLoading`, `ShowTranslation` and `Tick` change the popup state only.
Functions of the inputs spell out the effects of each flow:
- `InsertLog` for insertTextIntoElement;
- `SendEffects` and `InputEffects` for handleInputTranslation;
- `SelectionEffects` for handleSelectionTranslation;
- `ShortcutEffects` for the Alt+T shortcut.

Each method's contract says that what it appended is exactly the matching function, together
with the new popup, interval, pause flag and clipboard. Lemmas about those functions state
what the source promises: when a message is sent, when events fire, which commands are tried,
and what ends on the clipboard.

**Answers from the outside world are parameters.** This covers:
- the results of `execCommand` and of the clipboard calls;
- the configuration read;
- the background worker's reply;
- the time of a timer tick;
- the response to `fetch`.

**Imperative code becomes imperative Dafny:**
- `crc32` builds its table in two nested loops and folds the bytes in a third. It is proved
  equal to a functional `Checksum`.
- `createPNG` fills a zero-initialised buffer row by row while advancing `offset`. It is proved
  to produce `Scanlines`.

**Partners of the PNG writer.** A chunk reader is written next to the encoder. Every layout is
proved against it: what is written reads back as what was meant.

**Quirks of the code are modelled as written:**
- `isPaused` is reset and read but never set to true. So a tick while paused is modelled, but
  no operation pauses.
- Elapsed time counts from the fixed start of the interval.
- The input/textarea branch reports success without checking anything.
- The clipboard is restored only when the original read was non-empty.
- A missing model, or a failed translation in the input flow, leaves the loading indicator up.

## Model

| member | source | states |
|---|---|---|
| Types.FindIndex | src/lib/types.ts:17-48 | the lookup `find` performs on the language table: the index of the first entry with the code, none when no entry has it |
| Types.LanguageName | src/content/content.tsx:287 | `find(...)?.name \|\| fallback`: a code absent from the table always gives the fallback; any other result is the name of an entry with that code |
| Types.LanguageNameOfFirst | src/content/content.tsx:287 | the name comes from the first entry with the code: its name when that is not empty, the fallback otherwise |
| Types.SupportedLanguagesDistinct | src/lib/types.ts:17-48 | the table has 30 entries and no two share a code |
| Types.NamesNonEmpty | src/lib/types.ts:17-48 | every language in the table has a non-empty name |
| Types.KnownCodeName | src/content/content.tsx:287 | a code that is in the table never falls back: it resolves to the name of an entry with that code |
| Types.DefaultLanguages | src/lib/types.ts:50-56 | the default read language "es" resolves to "Spanish" and the default write language "en" to "English" |
| Types.DefaultHasNoModel | src/lib/types.ts:53 | a fresh configuration has no model selected, so the missing-model guard fires |
| Storage.Override | src/services/storage.ts:9 | the object spread: each field is the partial record's value when present, the base value otherwise |
| Storage.Complete | src/services/storage.ts:18 | a complete configuration stored as a record has every field |
| Storage.OverrideNoFields | src/services/storage.ts:15-17 | an empty partial record leaves the configuration unchanged |
| Storage.OverrideComplete | src/services/storage.ts:9 | a stored complete record is read back exactly |
| Storage.OverrideIdempotent | src/services/storage.ts:17 | applying the same partial record twice is applying it once |
| Storage.Store.constructor | src/services/storage.ts:4 | an empty storage area |
| Storage.Store.GetConfig | src/services/storage.ts:6-13 | exactly the defaults when the read throws or nothing is stored; otherwise the stored record merged over the defaults |
| Storage.Store.SaveConfig | src/services/storage.ts:15-20 | returns the current configuration overridden by the partial record; stores exactly that record under the key and changes no other key; a following read returns it; a rejected write stores nothing and fails |
| Storage.SaveIdempotent | src/services/storage.ts:15-19 | saving the same partial record a second time stores the same record again |
| JsString.TrimSpec | src/services/ollama.ts:55 | a trimmed string neither starts nor ends with whitespace |
| JsString.TrimIsInfix | src/services/ollama.ts:55 | trim keeps a middle part of the string and drops only whitespace on either side |
| JsString.TrimIdempotent | src/services/ollama.ts:55 | trimming twice is trimming once |
| JsString.TrimEmptyIffBlank | src/content/content.tsx:273 | `!text.trim()` holds exactly when every character is whitespace |
| JsString.TrimStartSpec | src/content/content.tsx:24 | removing the leading whitespace drops a blank prefix and stops at a non-whitespace character |
| JsString.TrimEndSpec | src/content/content.tsx:24 | removing the trailing whitespace drops a blank suffix and stops at a non-whitespace character |
| JsString.Split | src/content/content.tsx:24 | `split(/\s+/)` yields at least one piece, none containing whitespace |
| JsString.SplitJoin | src/content/content.tsx:24 | `split(/\s+/)` cuts at every maximal whitespace run and nowhere else: the separators are non-empty whitespace runs, every piece between two separators is non-empty, and pieces and separators put back together give the original string |
| JsString.SplitEnds | src/content/content.tsx:24 | the first piece is non-empty when the string starts with a non-whitespace character, the last when it ends with one |
| JsString.SplitEmpty | src/content/content.tsx:24 | the empty string splits into one empty piece |
| JsString.SplitWord | src/content/content.tsx:24 | a string without whitespace is one piece |
| JsString.ContainsIff | src/content/content.tsx:142 | `includes` is true exactly when the substring occurs at some index |
| JsString.Decimal | src/services/ollama.ts:7 | the decimal form of a non-negative integer below 10^21: digits only, and no leading zero except for 0 itself |
| JsString.DecimalRoundTrip | src/services/ollama.ts:7 | the decimal form reads back as the number |
| Ollama.BaseUrlParts | src/services/ollama.ts:6-8 | the base URL is "http://", then the host, ":", and digits that read back as the port, with the defaults for missing arguments |
| Ollama.DefaultBaseUrl | src/services/ollama.ts:6-8 | with no arguments the base URL is "http://localhost:11434" |
| Ollama.DefaultsAgree | src/lib/types.ts:51-52 | the stored default host and port name the same server as the constructor's defaults |
| Ollama.NewService | src/services/ollama.ts:6-8 | the base URL starts with "http://" and has more after it |
| Ollama.TagsRequest | src/services/ollama.ts:12-15 | a GET with no body whose URL is the base URL followed by "/api/tags" |
| Ollama.GenerateRequest | src/services/ollama.ts:41-50 | a POST to the base URL followed by "/api/generate"; the body names the model, carries exactly `Prompt` of the language and text (so it ends with the text), does not stream, and sets temperature 0.3 and at most 2048 tokens |
| Ollama.Prompt | src/services/ollama.ts:39 | the prompt is the fixed lead and the language, then exactly the fixed instruction ending in "\n\n", then the text verbatim |
| Ollama.CheckConnection | src/services/ollama.ts:10-20 | true exactly when the tags request got a response with an ok status; a thrown error is false |
| Ollama.ListModels | src/services/ollama.ts:22-36 | an ok JSON response with `models` yields exactly those models; a thrown fetch, a non-ok status, a body that is not JSON or one without `models` yields the empty list |
| Ollama.Translate | src/services/ollama.ts:38-56 | a thrown fetch propagates; a non-ok status fails with "Translation failed: " and the status text; success exactly when an ok response carries a `response` text; the result has no surrounding whitespace |
| Ollama.TranslateTrims | src/services/ollama.ts:55 | a successful translation is the generated text with only its surrounding whitespace removed, and trimming it again changes nothing |
| Ollama.TranslateHola | src/services/ollama.ts:55 | a server answering " Hola " yields "Hola" |
| Content.WordCount | src/content/content.tsx:24 | the number of words is at least one |
| Content.WordsOfText | src/content/content.tsx:24 | for text that is not blank every piece of the trimmed text is a non-empty run without whitespace, so the count is the number of words |
| Content.ReadingTime | src/content/content.tsx:23-27 | the budget lies between 2000 and 30000 ms |
| Content.ReadingTimeFormula | src/content/content.tsx:23-27 | the budget is 300 ms per word plus 1000 ms, clamped to 2000..30000 |
| Content.ReadingTimeMonotone | src/content/content.tsx:23-27 | more words never give less time |
| Content.ReadingTimeEnds | src/content/content.tsx:23-27 | one word gives 2000 ms; 97 words or more give 30000 ms; 96 or fewer stay below 30000 ms |
| Content.BlankIsOneWord | src/content/content.tsx:24 | blank text still counts as one word |
| Content.IsComplexEditor | src/content/content.tsx:140-145 | true exactly when "web.whatsapp.com" or "web.telegram.org" occurs in the hostname |
| Content.ComplexEditorIgnoresElement | src/content/content.tsx:140-145 | the test does not depend on the element |
| Content.InputText | src/content/content.tsx:264-271 | a text field gives its value; an editable element gives its `innerText`, or when that is empty its `textContent` or ""; anything else gives "" |
| Content.SelectedText | src/content/content.tsx:317-318 | no selection gives ""; otherwise the text neither starts nor ends with whitespace |
| Content.SelectedTextEmpty | src/content/content.tsx:318-320 | the flow stops exactly when there is no selection or the selection is all whitespace |
| Content.Commands | src/content/content.tsx:179 | the editing commands of a log are some of its entries, each an insertText or a paste |
| Content.InsertTextWorksIff | src/content/content.tsx:181-188 | the first complex strategy counts as working exactly when insertText returned true and the element holds more than whitespace |
| Content.InsertMethod | src/content/content.tsx:154-257 | the label names the branch and its outcome: on a complex editor execCommand-complex when insertText took, clipboard-complex when only the paste worked, complex-failed when neither did; in a text field native-setter exactly when the native value setter exists, direct-value otherwise; elsewhere generic-exec exactly when insertText returned true, unknown otherwise |
| Content.InsertLabels | src/content/content.tsx:154-257 | the labels "complex-failed" and "unknown" are reported exactly when the insertion did not succeed |
| Content.InsertSucceeds | src/content/content.tsx:154-257 | on a complex editor, success exactly when insertText took or the clipboard paste worked; a text field always succeeds; elsewhere success exactly when insertText returned true |
| Content.PasteClipboard | src/content/content.tsx:197-206 | after the fallback the clipboard holds the translation exactly when the write resolved and the read did not give a non-empty text; otherwise it holds what it held before |
| Content.InsertLog | src/content/content.tsx:154-257 | every branch focuses the element first and does at least four things |
| Content.InsertClipboard | src/content/content.tsx:162-217 | the clipboard changes only to the translation, and only in the complex branch after insertText did not take; there it becomes the translation exactly when the write resolved and the read did not give a non-empty text; a non-empty original read is always put back |
| Content.PasteCommands | src/content/content.tsx:196-211 | the fallback pastes exactly once when the text reached the clipboard, and tries no command otherwise |
| Content.ComplexCommands | src/content/content.tsx:162-217 | the complex branch tries insertText, then a paste only when insertText did not take and the clipboard was written |
| Content.InsertLogEditing | src/content/content.tsx:154-257 | inserting acts on the element only: no notification, no message, no key handling |
| Content.InsertLogWrites | src/content/content.tsx:154-257 | every branch writes the text: by insertText or by setting the value |
| Content.InsertLogEvents | src/content/content.tsx:154-257 | input and change events fire exactly when a command took: in the complex branch when insertText returned true or the paste worked, in a text field always, elsewhere never |
| Content.PercentGone | src/content/content.tsx:122-123 | the remaining percentage reaches zero exactly when the elapsed time reaches the reading time |
| Content.Page.constructor | src/content/content.tsx:67-69 | no popup, no interval, not paused, nothing done yet |
| Content.Page.RemovePopup | src/content/content.tsx:71-75 | afterwards there is no popup, no interval and no pause, whatever the state was, so calling it twice is calling it once; the invariant holds |
| Content.Page.ShowLoading | src/content/content.tsx:85-92 | the loading indicator replaces any popup, with no interval |
| Content.Page.ShowTranslation | src/content/content.tsx:94-127 | the translation replaces any popup, with an interval that starts now and lasts the text's reading time |
| Content.Page.Tick | src/content/content.tsx:120-125 | nothing changes while paused or without an interval; otherwise the popup is removed once the elapsed time reaches the reading time, and nothing changes before that |
| Content.Page.PasteFallback | src/content/content.tsx:196-214 | the log is the fallback's effects: nothing when the write rejects, otherwise focus, select-all, a 20 ms pause and paste, with the events when the paste worked; the clipboard ends as the translation, or as it was before the call when the read gave a non-empty text; success exactly when the write and the paste work |
| Content.Page.InsertComplex | src/content/content.tsx:162-217 | the log is insertText with its events, then the fallback only when insertText did not take; the clipboard is untouched when insertText took; the label is execCommand-complex, clipboard-complex or complex-failed, as the strategies worked |
| Content.Page.InsertTextIntoElement | src/content/content.tsx:154-257 | returns the success and label of `InsertSucceeds` and `InsertMethod`; appends exactly `InsertLog` and leaves the clipboard as `InsertClipboard` says |
| Content.DeliverNote | src/content/content.tsx:304-313 | the delivery ends with a notification: a success notice exactly when the insertion succeeded, the error notice exactly when it failed and the clipboard copy rejected, the warning otherwise |
| Content.SendEffects | src/content/content.tsx:289-313 | the message comes first and a notification last |
| Content.InputEffects | src/content/content.tsx:263-314 | every run of the input flow ends with a notification |
| Content.InputEffectsSend | src/content/content.tsx:263-298 | a message is sent exactly when the text is not blank and a model is selected, and it is the first effect |
| Content.DeliveredToClipboard | src/content/content.tsx:306-308 | a translation that could not be inserted but was copied ends on the clipboard, with the warning notice |
| Content.SelectionEffects | src/content/content.tsx:316-341 | the selection flow does nothing exactly when the trimmed selection is empty |
| Content.SelectionEffectsSend | src/content/content.tsx:316-341 | a message is sent exactly when something is selected and a model is chosen |
| Content.KeyRouteCases | src/content/content.tsx:343-355 | Escape closes exactly when a popup is shown; the shortcut is exactly Alt with t or T; the input flow is taken exactly for the shortcut with an editable element focused; Escape without a popup is ignored |
| Content.ShortcutEffects | src/content/content.tsx:346-353 | the shortcut first prevents the default, then stops propagation |
| Content.ShortcutSends | src/content/content.tsx:346-353 | the shortcut reaches the background worker exactly when a model is selected and the flow it picked has text; with no editable element and nothing selected, taking the key is all that happens |
| Content.SendsAfterKeys | src/content/content.tsx:347-348 | taking the key press sends nothing by itself |
| Content.Page.DeliverInput | src/content/content.tsx:300-313 | removes the popup; appends exactly the insertion's effects and then `DeliverNote`; the clipboard is the translation when insertion failed and the copy resolved, otherwise as the insertion left it |
| Content.Page.SendInput | src/content/content.tsx:287-313 | appends exactly `SendEffects`; a failed reply leaves the loading indicator up and the clipboard unchanged; a successful one removes the popup and leaves the clipboard as the delivery does |
| Content.Page.HandleInputTranslation | src/content/content.tsx:263-314 | appends exactly `InputEffects`; blank text changes no popup; otherwise the popup ends removed when a model is selected and the reply succeeded, and the loading indicator otherwise; the clipboard changes only through a delivery |
| Content.Page.HandleSelectionTranslation | src/content/content.tsx:316-341 | appends exactly `SelectionEffects`; an empty trimmed selection changes nothing; a model and a successful reply show the translation with an interval of its reading time; otherwise the loading indicator stays up |
| Content.Page.HandleKeyDown | src/content/content.tsx:343-355 | the route is `KeyRoute`. Closing the popup or ignoring the key changes neither the log nor the clipboard. The shortcut appends exactly `ShortcutEffects`. With nothing to translate the popup, interval, pause flag and clipboard stay as they were. With text, the input flow leaves the loading indicator up unless a model is selected and the reply succeeded, and the clipboard as the delivery left it; the selection flow shows the translation with an interval of its reading time, or leaves the loading indicator up, and never touches the clipboard. |
| Content.Page.TranslateShortcut | src/content/content.tsx:346-353 | takes the input route exactly when an editable element is focused; appends exactly `ShortcutEffects`; with nothing to translate the popup, interval, pause flag and clipboard stay as they were; with text, the new popup, interval, pause flag and clipboard are those the chosen flow leaves |
| Crc.CrcTable | generate-icons.js:42-46 | 256 entries, entry i being i after eight rounds of the reflected shift with polynomial 0xEDB88320 |
| Crc.Crc32 | generate-icons.js:39-49 | the method's result is the CRC-32 of the data |
| Crc.Checksum | generate-icons.js:39-49 | the CRC of no bytes is 0: the preset and the final complement cancel |
| Crc.RegisterSnoc | generate-icons.js:47 | feeding one more byte is one more table-driven update |
| Crc.RegisterAppend | generate-icons.js:47 | the register over `a + b` continues from the register left by `a` |
| Crc.IendCrc | generate-icons.js:39-49 | the CRC of "IEND" is the standard value 0xAE426082 |
| Png.BigEndian32 | generate-icons.js:31 | writeUInt32BE: four bytes that read back as the number |
| Png.BigEndian32OfRead | generate-icons.js:31 | four bytes are determined by their value |
| Png.ChunkLayout | generate-icons.js:29-37 | the chunk is 8 bytes longer than its type and data: the length big-endian, the type, the data, then the CRC of type and data big-endian |
| Png.ChunkBytes | generate-icons.js:29-37 | a chunk is 8 bytes longer than its type and data together |
| Png.CreateChunk | generate-icons.js:29-37 | fails exactly when the data length does not fit in 32 bits |
| Png.ParsePng | generate-icons.js:5 | a file only reads when it starts with the signature |
| Png.ChunkRoundTrip | generate-icons.js:29-37 | reading a written chunk gives back its type and data, with a matching CRC |
| Png.ChunksRoundTrip | generate-icons.js:26 | chunks written one after another read back in order |
| Png.IhdrLayout | generate-icons.js:6-10 | the IHDR payload is 13 bytes: width and height big-endian, bit depth 8, colour type 6, then three zero bytes |
| Png.ByteAt | generate-icons.js:18-21 | a pixel byte past the end of the data reads as 0, as `undefined` stored in a Buffer does |
| Png.PixelsAt | generate-icons.js:16-22 | pixel byte k of a row is data byte start + k |
| Png.RowAt | generate-icons.js:14-23 | row y occupies the bytes from its offset to the next row's |
| Png.Scanlines | generate-icons.js:12-23 | the rows end exactly where row `height` would start |
| Png.ScanlinesSize | generate-icons.js:12 | the raw data is exactly height·(1 + 4·width) bytes |
| Png.FilterByte | generate-icons.js:15 | every row starts with filter-type byte 0 |
| Png.RowByte | generate-icons.js:16-22 | byte 1 + k of row y is pixel byte 4·y·width + k |
| Png.PixelByte | generate-icons.js:17-21 | raw[y·(1+4w)+1+k] is rgba[4·y·w+k] for k < 4w, given enough pixel data |
| Png.Put | generate-icons.js:15 | `rawData[offset++] = b` appends b to the written prefix |
| Png.PutPixel | generate-icons.js:18-21 | the four writes of a pixel append its RGBA bytes |
| Png.PutRow | generate-icons.js:15-22 | one row: the filter byte, then the row's pixels; the offset advances by 1 + 4·width |
| Png.RawScanlines | generate-icons.js:12-23 | the buffer filled by the nested loops is exactly the scanlines, and `offset` ends at the buffer's length, height·(1 + 4·width): every byte is written and none past the end |
| Png.PngRoundTrip | generate-icons.js:26 | the signature followed by written chunks reads back as those chunks |
| Png.FileOfThree | generate-icons.js:24-26 | the signature and three chunks read back as those three chunks |
| Png.ImageFileParses | generate-icons.js:4-27 | an image's file reads back as IHDR, IDAT with the compressed scanlines, and an empty IEND |
| Png.CreatePng | generate-icons.js:4-27 | fails exactly when the width, the height or the compressed data does not fit in 32 bits; otherwise starts with the signature and reads back as IHDR, IDAT, IEND |

## Left out

**Background and UI**
- `src/background/background.ts`, the options page and the popup page: message relaying and
  React presentation.
- `sendToBackground`: the message plumbing becomes the `reply` parameter, a success with the
  translation or a failure. `chrome.runtime.lastError` and an unsuccessful response are both a
  failure.

**Page behaviour**
- `injectStyles`, `escapeHtml` and the HTML of the popups: DOM serialisation.
- `showNotification`: appears only as a `Notify` effect carrying its text and kind. The removal
  three seconds later is not modelled.
- Event-listener registration is not modelled.
- The copy button and the close button of the translation popup are not modelled. The close
  button only calls `removePopup`, which is modelled.
- The progress bar's width is not modelled. The interval's period of 100 ms becomes explicit
  `Tick` calls at given times.
- Floating-point arithmetic is modelled with real numbers:
  - the reading-time budget;
  - the remaining percentage.

  Rounding is left out.

**Timing and concurrency**
- Concurrency between handlers at `await` points: each handler runs to completion.
- A request still in flight when a new shortcut arrives is not modelled.
- The clipboard write that restores the original is not awaited and is assumed to succeed.

**Errors**
- Exceptions thrown by `focus`, `execCommand('selectAll')` or `execCommand('paste')` are
  modelled as normal returns. A throw inside the paste fallback would jump to its `catch`
  without restoring the clipboard (`src/content/content.tsx:200-206`). The model always
  restores a non-empty original and does not capture that path.
- JSON parsing:
  - a body that is not JSON is `Unparsable`;
  - a `models` or `response` field that is missing or of another type is a missing field.

**Storage**
- A partial record whose fields are present but `undefined` would override with `undefined`. The
  model's partial records only have present or missing fields.
- Extra keys kept in the stored record are not modelled.

**Icon writer**
- `generateIcon`: floating-point pixel geometry.
- The `zlib.deflateSync` internals: the compressor is a function parameter.
- `fs.writeFileSync`.
- Buffer allocation failing for sizes beyond the maximum Buffer length (other than the 32-bit
  limits of `writeUInt32BE`).

**Weaker statements**
- JsString.Decimal: only numbers below 10^21 are modelled as plain digits. JavaScript prints
  larger numbers in exponent form. Ports never come near that size.
- Crc.Crc32: equivalence with a bitwise, polynomial-division CRC is not proved. The table
  entries are proved to be the eight-round shift of the index. The standard check value of the
  "IEND" chunk type, 0xAE426082, is proved.
- Storage.Store.GetConfig: the port is a natural number. Negative or non-integer ports are not
  modelled.

**Where the program's own text and its code part ways.** The model follows the code:
- The options page tells the user that the translation popup pauses its timer on hover
  (`src/options/Options.tsx:213`). The content script never registers hover handlers and never
  sets `isPaused` to true. The model keeps the flag, its reset and the tick's check, with no
  operation that pauses.
- The paste fallback writes the translation to the clipboard
  (`src/content/content.tsx:198`) and writes the original back only when the read gave a
  non-empty string (`src/content/content.tsx:206`). When the read rejects or the clipboard was
  empty, the translation stays on the clipboard.
- The two notifications with a symbol are meant to start with a check mark (U+2713) and a
  warning sign (U+26A0). `src/content/content.tsx:305` and `:308` hold those characters
  encoded as UTF-8 and read back as Windows-1252, so they show as "âœ“" and "âš ". The model's
  `TranslatedNote` and `CopiedNote` hold those code points as the file does.
