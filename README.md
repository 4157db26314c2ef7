# Medication label scanner: a Dafny model of its text logic

The application photographs a medication label, reads it with OCR, asks a
language model to explain it, and reads the answer aloud. Almost all of that
is done by outside services. This project models the three pieces of local
logic and proves what they do:

- **the keyword safety check** of the `/api/analyze` handler
  (`backend/server.js`). The label text is lower-cased. "expired" or "recall"
  makes it unsafe with a warning. Otherwise "drowsiness" or "dizziness" gives
  a caution, and it stays safe. Anything else is reported safe.
- **the JSON slice of `analyzeSafety`** (`backend/safetyLogic.js`). The
  model's reply is cut from its first `{` to just past its last `}`, using
  JavaScript's `indexOf`, `lastIndexOf` and `slice` rules. It is then given
  to `JSON.parse`, and every failure becomes one fixed error object.
- **the `useSpeech` hook** (`client/src/useSpeech.js`). A language name maps
  to a BCP 47 tag (RFC 5646). `speak` and `stop` act on a synthesizer that is
  modelled as a queue of pending utterances, plus the hook's `isSpeaking`
  flag and `utteranceRef`.

Modules:

- `Wrappers` (`wrappers.dfy`): `Option`. `None` stands for `undefined` or for a call that threw.
- `JsString` (`js_string.dfy`): the string methods used, each with a specification.
- `Server` (`server.dfy`): the classifier.
- `SafetyLogic` (`safety_logic.dfy`): the JSON slice and the error fallback.
- `Speech` (`speech.dfy`): the language lookup, plus the classes `Utterance`, `Synth` and `SpeechHook`.

The client (`client/src/MedicationScanner.jsx:179-225`) reads `color`,
`title`, `data` and `fda` from the reply, but this handler never sends them.
The model follows what `backend/server.js` returns: `{safe, message}`,
decided by four words.

## Model

| member | source | states |
|---|---|---|
| `JsString.LowerChar` | backend/server.js:16 | an ASCII capital becomes its lower-case letter and every other character is unchanged; the result is never a capital |
| `JsString.ToLowerCase` | backend/server.js:16 | the result has the input's length and holds, at each position, the case-folded character |
| `JsString.ToLowerCaseIdempotent` | backend/server.js:16 | lower-casing an already lower-cased text changes nothing |
| `JsString.ToLowerCaseAppend` | backend/server.js:16 | lower-casing a concatenation is concatenating the lower-cased parts |
| `JsString.Includes` | backend/server.js:22 | `includes` is true exactly when the pattern occurs at some index |
| `JsString.OccursInContext` | backend/server.js:22 | an occurrence in a text remains an occurrence after any text is put before and after it |
| `JsString.IndexOf` | backend/safetyLogic.js:48 | -1 exactly when the pattern does not occur; otherwise an index where it occurs with no occurrence before it |
| `JsString.IndexOfChar` | backend/safetyLogic.js:48 | for one character: -1 exactly when it is absent; otherwise it stands there and not earlier |
| `JsString.LastIndexOf` | backend/safetyLogic.js:49 | -1 exactly when the pattern does not occur; otherwise an index where it occurs with no occurrence after it |
| `JsString.LastIndexOfChar` | backend/safetyLogic.js:49 | for one character: -1 exactly when it is absent; otherwise it stands there and not later |
| `JsString.RelativeIndex` | backend/safetyLogic.js:50 | a `slice` argument: negative counts back from the length and stops at 0; past the length stops at the length |
| `JsString.Slice` | backend/safetyLogic.js:50 | the result is a substring of the input; empty when the relative end is not after the relative start, otherwise the text between the two relative positions |
| `JsString.SliceWithinBounds` | backend/safetyLogic.js:50 | with `0 <= start <= end <= length`, `slice` is the plain substring |
| `JsString.SliceFromMinusOne` | backend/safetyLogic.js:50 | on a non-empty string, a start of -1 means the last character |
| `Server.Classify` | backend/server.js:16-28 | unsafe exactly when a danger word occurs, in any case; the warning message then; the caution message when only a drowsiness word occurs; the safe message otherwise |
| `Server.HandleAnalyze` | backend/server.js:12-30 | a missing `text` field produces no verdict (the handler throws); a present one produces its classification |
| `Server.MessageIsOneOfThree` | backend/server.js:18-28 | the message is one of the three fixed messages, and it is the warning exactly when `safe` is false |
| `Server.DangerTakesPrecedence` | backend/server.js:22-27 | a text with both "recall" and "drowsiness" gets the warning, unsafe |
| `Server.ClassifyIgnoresCase` | backend/server.js:16 | a text and its lower-cased form get the same verdict |
| `Server.UnsafeInAnyContext` | backend/server.js:16-24 | a text flagged unsafe is still flagged with any text around it (substring, not word, matching) |
| `Server.UpperCaseRecallIsFlagged` | backend/server.js:16-24 | "RECALL" and "Recall" both get the warning |
| `Server.EmptyTextIsSafe` | backend/server.js:18-19 | the empty text is reported safe with the default message |
| `SafetyLogic.MakeRequest` | backend/safetyLogic.js:8 | the request carries the drug list, and the language defaults to "English" when it is not given |
| `SafetyLogic.JsonCandidate` | backend/safetyLogic.js:47-50 | the candidate is always a substring of the reply |
| `SafetyLogic.CandidateBetweenBraces` | backend/safetyLogic.js:48-50 | when the first `{` comes before the last `}`, the candidate runs from that `{` through that `}`; the reply is the dropped prefix (no `{` in it), then the candidate, then the dropped suffix (no `}` in it) |
| `SafetyLogic.CandidateWithoutOpenBrace` | backend/safetyLogic.js:48-50 | a reply with no `{` gives start -1, read as the last character, so the candidate is "" or "}" |
| `SafetyLogic.CandidateEmptyWhenClosedBeforeOpen` | backend/safetyLogic.js:48-50 | when there is a `{` and the last `}`, if any, is before it, the candidate is empty |
| `SafetyLogic.CandidateIdempotent` | backend/safetyLogic.js:48-50 | extracting from an extracted candidate returns it unchanged, for every reply |
| `SafetyLogic.AnalyzeSafety` | backend/safetyLogic.js:35-55 | the result is the parsed candidate exactly when the model call and the parse both succeed; otherwise exactly the fixed error message; nothing is thrown |
| `SafetyLogic.NoObjectMeansFailure` | backend/safetyLogic.js:48-54 | if the parse rejects "" and "}", a reply with no `{`, or with no `}` after its first `{`, ends in the fixed error |
| `Speech.LangMapGet` | client/src/useSpeech.js:27-34 | `langMap[lang]` finds the own tag for the five names, an inherited member for the names every object inherits, `undefined` otherwise |
| `Speech.InheritedAsString` | client/src/useSpeech.js:34 | the string an inherited member becomes when assigned to `lang` is never one of the five-character tags |
| `Speech.LangAttributeAsWritten` | client/src/useSpeech.js:34 | own keys give their tag; unknown names give `en-US`; inherited names give a string that is not a mapped tag |
| `Speech.InheritedNameEscapesFallback` | client/src/useSpeech.js:34 | for the name "toString", the language is neither a mapped tag nor `en-US` |
| `Speech.LangTag` | client/src/useSpeech.js:27-34 | the five names get their own tags; every other name gets `en-US` |
| `Speech.LangTagIsMappedTag` | client/src/useSpeech.js:27-34 | the tag is always one of the five mapped tags |
| `Speech.KnownLangTags` | client/src/useSpeech.js:16-34 | English→en-US, Spanish→es-ES, French→fr-FR, Arabic→ar-SA, Mandarin→zh-CN, and the default argument "en-US" (not a key) falls back to en-US |
| `Speech.LangTagAgreesOutsideInherited` | client/src/useSpeech.js:27-34 | for every name that is not inherited, the corrected lookup equals the lookup as written |
| `Speech.Utterance.constructor` | client/src/useSpeech.js:23 | a new utterance holds the text, with no language set yet |
| `Speech.Synth.Cancel` | client/src/useSpeech.js:20 | `cancel()` leaves no utterance pending |
| `Speech.Synth.Speak` | client/src/useSpeech.js:45 | `speak(u)` appends `u` to the pending queue |
| `Speech.Synth.Finish` | client/src/useSpeech.js:41 | the engine removes the head of the queue, if there is one, and returns it |
| `Speech.SpeechHook.constructor` | client/src/useSpeech.js:5-7 | `isSpeaking` starts false and `utteranceRef` starts null |
| `Speech.SpeechHook.Speak` | client/src/useSpeech.js:16-46 | with no synthesizer or empty text, the queue and `utteranceRef` are unchanged; otherwise exactly one fresh utterance of the text is pending, with the tag of the language, and `utteranceRef` points to it; `isSpeaking` is untouched; the invariant (at most the hook's utterance pending, carrying a mapped tag) is kept. The language comes from the corrected lookup `Speech.LangTag` (see Findings) |
| `Speech.SpeechHook.Stop` | client/src/useSpeech.js:48-53 | with a synthesizer, the queue is empty and `isSpeaking` is false; without one, nothing changes |
| `Speech.SpeechHook.Unmount` | client/src/useSpeech.js:10-14 | the clean-up cancels all pending speech |
| `Speech.SpeechHook.OnStart` | client/src/useSpeech.js:40 | the start event sets `isSpeaking` |
| `Speech.SpeechHook.OnEnd` | client/src/useSpeech.js:41 | the end event clears `isSpeaking` |
| `Speech.SpeechHook.OnError` | client/src/useSpeech.js:42 | the error event clears `isSpeaking` |
| `Speech.SpeechHook.EngineFinishes` | client/src/useSpeech.js:41 | when the pending utterance finishes, it leaves the queue and `isSpeaking` is false; with no synthesizer or nothing pending, nothing changes |

## Findings

| source | as written | input that shows it | evidently intended | confidence | as-written member | corrected member |
|---|---|---|---|---|---|---|
| client/src/useSpeech.js:34 | the `langMap[lang]` lookup, with its fallback to `en-US`, looks the name up through the prototype chain, so inherited members of `Object.prototype` count as hits | `speak(text, "toString")`: the utterance's language becomes `"function toString() { [native code] }"`, and `"__proto__"` gives `"[object Object]"` | a name that is not one of the five falls back to `en-US`, so the tag is always one of the five | not executed; follows from JavaScript's property lookup. `MedicationScanner.jsx` only passes names from its fixed language menu, so the app itself does not reach it | `Speech.LangAttributeAsWritten`, `Speech.InheritedNameEscapesFallback` | `Speech.LangTag`, `Speech.LangTagIsMappedTag` (used by `Speech.SpeechHook.Speak`) |

## Left out

- JsString.ToLowerCase: folds ASCII letters only. Unicode case mapping is not modelled.
- Speech.SpeechHook.Speak: sets the utterance's language with the corrected lookup `Speech.LangTag`. As written, `client/src/useSpeech.js:34` gives a string that is not a language tag for the twelve names every object inherits, such as "toString" (`Speech.LangAttributeAsWritten`). For every other name the two agree (`Speech.LangTagAgreesOutsideInherited`).
- JavaScript strings are sequences of UTF-16 code units; here a string is a sequence of Unicode characters. So `indexOf`, `lastIndexOf` and `slice` positions differ from JavaScript's once a character outside the Basic Multilingual Plane comes before them. The `includes` results and the sliced candidate text are the same either way.
- The Anthropic API call and the prompt text (`backend/safetyLogic.js:4-44`). These are network calls to an outside service. The call is a parameter `ask` that returns the reply text, or `None` when it throws (including a reply with no first content block).
- `JSON.parse` is a parameter `parse`. Its internals are not modelled. The only property assumed is that it rejects "" and "}". Those are the only candidates a reply without an object can give.
- `drugList.join` in the prompt (`backend/safetyLogic.js:19`) throws, outside the `try`, when `drugList` is not an array. The model types `drugList` as a sequence of strings, so it does not show that throw.
- `async`/`await` and the promise that `analyzeSafety` returns are not modelled. The model gives the settled value.
- Express setup, CORS, `res.json`, `app.listen` and console logging (`backend/server.js:1-11,30-36`) are I/O plumbing. A `text` field that is not a string is treated like a missing one: `toLowerCase` throws and no verdict is sent.
- `client/src/MedicationScanner.jsx` (OCR, `fetch`, React state, styling, the font-size slider) and `client/src/App.jsx` (layout) are not part of this model.
- The browser's speech engine is modelled only as a pending queue. Its timing, and the events it may fire on cancelled utterances, are not modelled. The `rate` and `pitch` settings (floating point, `client/src/useSpeech.js:36-37`) are left out.
- React's `setIsSpeaking` is asynchronous. It is modelled as an immediate assignment. The event handlers are methods that the caller invokes.
- Only `text` values that are strings are modelled in `speak`, and the empty string is the falsy case. A missing `synth` is a null `synth`.
