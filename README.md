# talktopdf: voice-session controller and document registry

This project models two stateful parts of a "talk to a PDF" web application and proves properties of them.

1. **The voice-session controller** is the browser's `App` component (static/js/app.js). Its state is:
   - the `isListening` and `isResponding` flags;
   - the status line;
   - the selected document id;
   - the append-only transcript of `{speaker, text}` entries;
   - the `utteranceRef` slot;
   - the last speech-recognition object built.

   Every handler becomes one method of the class `VoiceApp.App`, and each method overwrites those fields:
   - toggle = start or stop;
   - a recognition result;
   - the chat reply or failure;
   - the end of the synthesised speech;
   - the user's interrupt;
   - a recognition error;
   - the recognition's end;
   - the upload outcome;
   - the selector's choice;
   - unmount.

   The module `VoiceSession` holds the same state as a value `Session`. It has one transition function per handler and a transition relation over event traces. Each method's contract ties the object's new state to the matching transition. The lemmas prove the handlers' promises, and they prove an invariant that holds in every reachable state.

2. **The document registry** is the backend's `pdf_data` dictionary (app.py). It is modelled as a map plus the key insertion order, because Python dictionaries keep insertion order and `/pdfs` lists entries in that order.
   - `Registry.UploadFile` runs the upload guards and inserts one entry.
   - `Chat` is the lookup plus the branch on the handler's outcome.
   - `ListPdfs` is the listing.

`uuid4`, `secure_filename`, `process_pdf` and `handle_chat` are parameters:
- `uuid4` is a fresh id;
- `secure_filename` is a total string function;
- `process_pdf` and `handle_chat` are functions that return a value or an exception message.

### Behaviour worth noting

The model follows the code as written:

- **No busy guard.** `onresult` does not check `isResponding`. A second phrase recognised while an answer is pending gets its own User entry and its own request (`ResultAppendsUserEntry`).
- **Stale closures.** Each recognition object's handlers close over the `isListening` and `selectedPDF` values from the moment it was built, so the model stores both in `Recognition`.
  - The chat request carries the document that was selected when listening began (`RequestUsesCapturedPdf`). Selecting or uploading another document mid-session does not redirect it.
  - The `isListening` captured by `startListening` is always false, because `toggleListening` only starts when not listening. So the restart in `onend` never runs: when the engine ends on its own, the page keeps showing "Listening..." with no recognition running (`NoAutoRestart`).
- **Errors do not end the session.** A recognition error only sets the status to "Error: " followed by the reason. A failed chat reply shows "Error occurred", not the error text, and it leaves `isListening` as it was.
- **`utteranceRef` is never cleared.** After the first reply, every interrupt and every start cancels speech synthesis.
- **Starting cancels speech.** Installing a new recognition re-runs the `[recognition]` effect. Its cleanup cancels speech synthesis whenever an utterance was ever created, so `StartListening` empties the speech queue in that case.
- **Invariant of every reachable state (`VoiceSession.Inv`, `ReachableInv`):**
  - every AI entry answers an earlier User entry, and this holds for every prefix of the transcript;
  - every request in flight belongs to an unanswered User entry;
  - the speech queue ends with the current utterance, and that utterance is in the transcript;
  - a recognition exists while listening, and it was built with the captured flag false.

Handler events are delivered one at a time, and each handler's state update is applied as a whole. The asynchronous `onresult` is split at its `await`:
- `OnResult` covers the part before the fetch and returns the request it sends;
- `OnChatDone` covers the part after the fetch settles.

This split can only be delivered while a request is in flight.

`StartListening` and `StopListening` require `!isListening` and `isListening` respectively, because `toggleListening` is their only caller. `OnResult`, `OnRecognitionError` and `OnRecognitionEnd` require a recognition object, because only such an object fires them.

## Model

| member | source | states |
|---|---|---|
| VoiceApp.App.constructor | static/js/app.js:209-217 | The component mounts not listening, not responding, with empty status, no selected PDF, empty transcript, no utterance and no recognition; the invariant holds. |
| VoiceApp.App.StartListening | static/js/app.js:233-292 | Without a selected PDF: only status "Please select a PDF first"; listening flag, transcript and recognition unchanged. Otherwise a recognition bound to the selected PDF with captured flag false is running, listening is true, status "Listening...", and speech is cancelled if an utterance exists. |
| VoiceApp.App.StopListening | static/js/app.js:294-300 | The recognition is stopped, listening is false and the status is empty. |
| VoiceApp.App.ToggleListening | static/js/app.js:302-308 | Stops when listening (listening false, status ""), otherwise starts (listening and "Listening..." with a PDF, "Please select a PDF first" without). |
| VoiceApp.App.SelectPdf | static/js/app.js:344 | Only the selected PDF changes. |
| VoiceApp.App.OnResult | static/js/app.js:245-257 | For a readable last result: responding, status "Responding...", one User entry with its first alternative appended, and the returned request carries that text and the recognition's PDF id. An unreadable result changes nothing and sends nothing. |
| VoiceApp.App.OnChatDone | static/js/app.js:258-274 | An ok reply becomes the utterance, is queued for speaking and appends one AI entry, leaving status and responding flag as they were. A failure sets "Error occurred", clears responding and leaves transcript and utterance unchanged. |
| VoiceApp.App.OnSpeechEnd | static/js/app.js:261-264 | The head utterance leaves the speech queue; status "Listening..." and responding false. |
| VoiceApp.App.InterruptAI | static/js/app.js:310-316 | Responding false and the interrupted status always; the speech queue is emptied only when an utterance exists. |
| VoiceApp.App.OnRecognitionError | static/js/app.js:277-280 | Only the status changes, to "Error: " followed by the reason. |
| VoiceApp.App.OnRecognitionEnd | static/js/app.js:282-286 | The recognition is left stopped (the captured flag is false), nothing else changes. |
| VoiceApp.App.HandleFileUpload | static/js/app.js:329-337 | Success selects the uploaded id and reports success; failure only reports failure. |
| VoiceApp.App.Teardown | static/js/app.js:318-327 | The recognition is stopped and speech is cancelled when an utterance exists. |
| VoiceSession.InitInv | static/js/app.js:210-217 | The initial state satisfies the invariant. |
| VoiceSession.NextKeepsInv | static/js/app.js:233-337 | Every handler, on any state satisfying the invariant, yields a state satisfying it. |
| VoiceSession.RunKeepsInv | static/js/app.js:233-337 | Any trace of enabled handler calls preserves the invariant. |
| VoiceSession.ReachableInv | static/js/app.js:209-337 | Every state reachable from mounting satisfies the invariant: AI entries never outnumber User entries in any prefix, pending requests stay below the unanswered User entries, the speech queue ends with the current utterance, and the recognition's captured flag is false. |
| VoiceSession.TranscriptAppendOnly | static/js/app.js:245-266 | Over any trace the old transcript is a prefix of the new one. |
| VoiceSession.StartWithoutPdf | static/js/app.js:234-237 | Starting with no PDF only sets the status; listening, transcript and recognition unchanged. |
| VoiceSession.StartThenStop | static/js/app.js:288-300 | Starting with a PDF listens with status "Listening..." on a running recognition bound to it; stopping then gives listening false, status "" and a stopped recognition. |
| VoiceSession.ToggleTwice | static/js/app.js:302-308 | From idle with a PDF, one toggle listens and two toggles return to not listening with empty status and the same transcript. |
| VoiceSession.ResultAppendsUserEntry | static/js/app.js:245-257 | A readable result sets responding and "Responding...", appends exactly one User entry with the last result's transcript, leaves listening, and the request is that text with the recognition's PDF id. |
| VoiceSession.EmptyResultIgnored | static/js/app.js:246 | When the transcript expression throws, nothing changes and no request is sent. |
| VoiceSession.RequestUsesCapturedPdf | static/js/app.js:233-292 | After a start and any events other than toggles, the request's pdf_id is the PDF selected when listening began. |
| VoiceSession.RecognitionPdfFixed | static/js/app.js:239-286 | Without a toggle no handler rebuilds the recognition or changes its captured PDF and flag. |
| VoiceSession.ReplyThenSpeechEnd | static/js/app.js:259-266 | An ok reply becomes the utterance, is queued and appends one AI entry; its end then gives status "Listening..." and responding false. |
| VoiceSession.FailureLogsNothing | static/js/app.js:267-274 | A failed reply sets "Error occurred" and responding false and leaves transcript, utterance and speech queue unchanged. |
| VoiceSession.InterruptCancelsOnlyWithUtterance | static/js/app.js:310-316 | Interrupt always clears responding and sets the interrupted status; the queue empties only when an utterance exists; transcript and listening unchanged. |
| VoiceSession.ErrorOnlySetsStatus | static/js/app.js:277-280 | A recognition error changes only the status, to "Error: " + reason; listening unchanged. |
| VoiceSession.NoAutoRestart | static/js/app.js:282-308 | In every reachable state the end of recognition leaves it stopped while listening and status stay as they were. |
| VoiceSession.UploadOutcome | static/js/app.js:329-337 | Success selects the uploaded id with the success status; failure keeps the selection with the failure status. |
| VoiceSession.Conversation | static/js/app.js:245-266 | Select, toggle, a "hello" result, a "hi there" reply and the speech end leave the page listening, not responding, with status "Listening..." and transcript User "hello", AI "hi there". |
| DocumentRegistry.Empty | app.py:14 | The registry starts empty and well formed. |
| DocumentRegistry.Insert | app.py:34-37 | Dictionary assignment keeps every key listed once, keeps the old order as a prefix of the new one (an existing key keeps its place, a new key goes last), stores the new value under the key, and leaves every other key and value unchanged. |
| DocumentRegistry.InsertFresh | app.py:29-37 | Under a fresh id the registry grows by exactly one entry, appended at the end of the order. |
| DocumentRegistry.LowerAt | app.py:27 | Lower-casing keeps the length and maps each character. |
| DocumentRegistry.PdfNameIgnoresCase | app.py:27 | A name passes the type check exactly when its last four characters are "." and p, d, f in either case. |
| DocumentRegistry.PdfNameExamples | app.py:27 | "Report.PDF" and "notes.Pdf" pass; "notes.txt", "pdf" and "report.pdf.exe" do not. |
| DocumentRegistry.CheckUpload | app.py:22-41 | The guards pass exactly when the file part exists, its name is non-empty and a PDF name, giving the raw name; otherwise a 400 with "No file part" for a missing part, "No selected file" for an empty name, or "Invalid file type. Please upload a PDF." for a non-PDF name. |
| DocumentRegistry.Registry.constructor | app.py:14 | The registry starts empty. |
| DocumentRegistry.Registry.UploadFile | app.py:21-41 | A rejected request returns its 400 with the registry unchanged; an accepted one whose processing raises returns 500 unchanged; otherwise the sanitized name and chain are inserted under the fresh id and 200 with that id is returned. |
| DocumentRegistry.Chat | app.py:44-58 | Missing fields give 500; an unknown id gives 400 "Invalid PDF ID"; a known id gives 200 with the handler's answer for the stored chain, or 500 with the handler's exception message. |
| DocumentRegistry.ChatUnknownIdSkipsHandler | app.py:49-50 | For an unknown id the result is the same whatever the handler would answer. |
| DocumentRegistry.ListPdfs | app.py:60-62 | One {id, filename} per registry entry, in insertion order, with distinct ids, covering every entry and nothing else. |
| DocumentRegistry.OrderCoversRecords | app.py:14-62 | A well-formed registry has exactly one order position per entry. |
| DocumentRegistry.UploadThenList | app.py:34-62 | After an insert under a fresh id the listing is the old listing followed by exactly the new {id, filename}. |

## Left out

- `VoiceVisualizer` (static/js/app.js:19-87) is not modelled: microphone capture, Web Audio, canvas drawing and floating-point geometry.
- `FileUpload.handleUpload` (static/js/app.js:117-153) is not modelled: an XHR with a fractional progress value. The only part kept is the `onFileUpload(success, id)` outcome, as `HandleFileUpload`.
- `fetchPDFs`, the `pdfs` list and all presentational components are not modelled: they only feed the display. The recognition settings (`lang`, `interimResults`, `maxAlternatives`, `continuous`) and the `console.error` logging are also not modelled.
- Events from an earlier recognition object are not modelled: after a newer one replaces it, events arrive from the current recognition only.
- React's render scheduling is not modelled: each handler's whole update is applied as one atomic step.
- VoiceApp.App.OnSpeechEnd: the model assumes that cancelled utterances fire no end event. `speechSynthesis.cancel` empties the speech queue, and browsers that still deliver an end event for a cancelled utterance would also show "Listening..." then.
- The browser speech and recognition engines are not modelled. What they deliver is an event parameter: recognised alternatives, error reasons, the end of an utterance or of recognition.
- Flask plumbing is not modelled: routing, `MAX_CONTENT_LENGTH`, and a `/chat` body that is not a JSON object or has non-string values. `file.save` is assumed to succeed.
- DocumentRegistry.Registry.UploadFile: `uuid4` is a parameter. The model does not assume freshness: an id already present is overwritten in place, as the dictionary would do. `secure_filename` is an arbitrary function. Note that the type check looks at the raw name, not the sanitized one.
- DocumentRegistry.PdfNameIgnoresCase: Python's `str.lower` is modelled on the ASCII letters only. No other character lower-cases to '.', 'p', 'd' or 'f', so the outcome of the `.pdf` test is the same.
- pdf_processor.py and chat_handler.py are not modelled: they are calls into langchain, Chroma, HuggingFace and Groq. They appear as the `processPdf` and `handleChat` parameters.
