/**
 * The voice-session controller of the browser front end (the `App` component in
 * static/js/app.js), stripped of React: a value `Session` holding every piece of state
 * the handlers read or write, and one transition function per handler.  Browser and
 * network results (recognised text, the chat reply or failure, the upload outcome)
 * are parameters of the transitions.
 *
 * The class `VoiceApp.App` updates the same state in place; its methods are specified
 * by the functions here, and the lemmas below state what the handlers promise.
 */
module VoiceSession {
  import opened Wrappers

  // Status texts shown by the status indicator.
  const NeedPdf := "Please select a PDF first"
  const ListeningText := "Listening..."
  const RespondingText := "Responding..."
  const ErrorText := "Error occurred"
  const InterruptedText := "AI response interrupted. You can ask a new question."
  const UploadOkText := "PDF uploaded successfully. You can now ask questions."
  const UploadFailedText := "PDF upload failed. Please try again."
  const ErrorPrefix := "Error: "

  datatype Speaker = User | AI

  /** One line of the conversation log. */
  datatype Entry = Entry(speaker: Speaker, text: string)

  /**
   * A speech-recognition object built by `startListening`.  Its handlers close over
   * the values `isListening` and `selectedPDF` had when it was built, so those two are
   * fixed here; `running` says whether the last call the page made on it was
   * `start()` (true) or `stop()`, or whether the engine has since ended it.
   */
  datatype Recognition = Recognition(listeningAtStart: bool, pdfId: string, running: bool)

  /** The body of the POST to /chat: `{message, pdf_id}`. */
  datatype ChatRequest = ChatRequest(message: string, pdfId: string)

  /** How the awaited /chat call ended: an ok reply, or a non-ok status / thrown error. */
  datatype ChatOutcome = Reply(text: string) | Failed

  /**
   * The controller's state.  `utterance` is `utteranceRef.current` (the text of the
   * last utterance handed to the synthesiser; the source never clears it);
   * `speaking` is the synthesiser's queue of utterances whose end has not fired;
   * `inFlight` counts /chat requests whose reply has not yet been handled.
   */
  datatype Session = Session(
    listening: bool,
    responding: bool,
    status: string,
    selectedPdf: string,
    transcript: seq<Entry>,
    utterance: Option<string>,
    recognition: Option<Recognition>,
    speaking: seq<string>,
    inFlight: nat)

  /** The state the component mounts with. */
  function Init(): Session {
    Session(false, false, "", "", [], None, None, [], 0)
  }

  // ---------------------------------------------------------------------------
  // Transitions, one per handler
  // ---------------------------------------------------------------------------

  /**
   * `startListening`: refuses without a selected PDF; otherwise builds and starts a
   * new recognition. Installing it re-runs the `[recognition]` effect, whose cleanup
   * cancels speech synthesis when an utterance has ever been created.
   */
  function StartListening(s: Session): Session {
    if s.selectedPdf == "" then
      s.(status := NeedPdf)
    else
      s.(recognition := Some(Recognition(s.listening, s.selectedPdf, true)),
         listening := true,
         status := ListeningText,
         speaking := if s.utterance.Some? then [] else s.speaking)
  }

  /** `stopListening`: stops the current recognition, if any; clears the status. */
  function StopListening(s: Session): Session {
    s.(recognition := if s.recognition.Some? then Some(s.recognition.value.(running := false)) else None,
       listening := false,
       status := "")
  }

  /** `toggleListening`: stop when listening, start otherwise. */
  function ToggleListening(s: Session): Session {
    if s.listening then StopListening(s) else StartListening(s)
  }

  /** `setSelectedPDF` from the PDF selector. */
  function SelectPdf(s: Session, id: string): Session {
    s.(selectedPdf := id)
  }

  /**
   * The text `event.results[event.results.length - 1][0].transcript` reads, where each
   * result is given as the list of its alternatives' transcripts; None where that
   * expression throws (no result, or a result without alternatives).
   */
  function LastTranscript(results: seq<seq<string>>): Option<string> {
    if |results| > 0 && |results[|results| - 1]| > 0 then Some(results[|results| - 1][0]) else None
  }

  /**
   * The synchronous part of `onresult`, up to the awaited fetch: it shows
   * "Responding...", raises `isResponding`, logs the user's words and sends the
   * request.  There is no check of `isResponding`.  When the transcript expression
   * throws, nothing has changed yet.
   */
  function OnResult(s: Session, results: seq<seq<string>>): Session {
    match LastTranscript(results)
    case None => s
    case Some(text) =>
      s.(status := RespondingText,
         responding := true,
         transcript := s.transcript + [Entry(User, text)],
         inFlight := s.inFlight + 1)
  }

  /** The /chat request `onresult` sends: the recognised text and the captured PDF id. */
  function RequestOf(s: Session, results: seq<seq<string>>): Option<ChatRequest>
    requires s.recognition.Some?
  {
    match LastTranscript(results)
    case None => None
    case Some(text) => Some(ChatRequest(text, s.recognition.value.pdfId))
  }

  /**
   * The rest of `onresult`, after the fetch settled. An ok reply becomes the new
   * utterance, is queued for speaking and is logged; a failure shows "Error occurred"
   * and lowers `isResponding`.
   */
  function OnChatDone(s: Session, outcome: ChatOutcome): Session
    requires s.inFlight > 0
  {
    match outcome
    case Reply(text) =>
      s.(utterance := Some(text),
         speaking := s.speaking + [text],
         transcript := s.transcript + [Entry(AI, text)],
         inFlight := s.inFlight - 1)
    case Failed =>
      s.(status := ErrorText,
         responding := false,
         inFlight := s.inFlight - 1)
  }

  /** `utterance.onend` of the utterance at the head of the synthesiser's queue. */
  function OnSpeechEnd(s: Session): Session
    requires s.speaking != []
  {
    s.(speaking := s.speaking[1..],
       status := ListeningText,
       responding := false)
  }

  /** `interruptAI`: cancels synthesis only when an utterance was ever created. */
  function Interrupt(s: Session): Session {
    s.(speaking := if s.utterance.Some? then [] else s.speaking,
       responding := false,
       status := InterruptedText)
  }

  /** `onerror` of the current recognition. */
  function OnRecognitionError(s: Session, reason: string): Session
    requires s.recognition.Some?
  {
    s.(status := ErrorPrefix + reason)
  }

  /**
   * `onend` of the current recognition: the engine has stopped, and it is started
   * again only if the `isListening` captured at construction was true.
   */
  function OnRecognitionEnd(s: Session): Session
    requires s.recognition.Some?
  {
    var r := s.recognition.value;
    s.(recognition := Some(r.(running := r.listeningAtStart)))
  }

  /** `handleFileUpload(success, pdf_id)`. */
  function HandleFileUpload(s: Session, success: bool, pdfId: string): Session {
    if success then s.(selectedPdf := pdfId, status := UploadOkText)
    else s.(status := UploadFailedText)
  }

  /** The cleanup of the `[recognition]` effect on unmount. */
  function Teardown(s: Session): Session {
    s.(recognition := if s.recognition.Some? then Some(s.recognition.value.(running := false)) else None,
       speaking := if s.utterance.Some? then [] else s.speaking)
  }

  // ---------------------------------------------------------------------------
  // Event traces
  // ---------------------------------------------------------------------------

  /** Everything that can happen to a mounted component, one handler call each. */
  datatype Event =
    | Toggle
    | Select(id: string)
    | Result(results: seq<seq<string>>)
    | ChatDone(outcome: ChatOutcome)
    | SpeechEnd
    | InterruptAI
    | RecognitionError(reason: string)
    | RecognitionEnd
    | Upload(success: bool, pdfId: string)

  /** Whether the event can be delivered: a handler only fires on an object that exists. */
  predicate Enabled(s: Session, e: Event) {
    match e
    case Result(_) => s.recognition.Some?
    case RecognitionError(_) => s.recognition.Some?
    case RecognitionEnd => s.recognition.Some?
    case ChatDone(_) => s.inFlight > 0
    case SpeechEnd => s.speaking != []
    case _ => true
  }

  function Next(s: Session, e: Event): Session
    requires Enabled(s, e)
  {
    match e
    case Toggle => ToggleListening(s)
    case Select(id) => SelectPdf(s, id)
    case Result(results) => OnResult(s, results)
    case ChatDone(outcome) => OnChatDone(s, outcome)
    case SpeechEnd => OnSpeechEnd(s)
    case InterruptAI => Interrupt(s)
    case RecognitionError(reason) => OnRecognitionError(s, reason)
    case RecognitionEnd => OnRecognitionEnd(s)
    case Upload(success, id) => HandleFileUpload(s, success, id)
  }

  /** Whether every event of the trace is enabled when it arrives. */
  predicate Runnable(s: Session, evs: seq<Event>)
    decreases |evs|
  {
    evs == [] || (Enabled(s, evs[0]) && Runnable(Next(s, evs[0]), evs[1..]))
  }

  /** The state after handling the events in order. */
  function Run(s: Session, evs: seq<Event>): Session
    requires Runnable(s, evs)
    decreases |evs|
  {
    if evs == [] then s else Run(Next(s, evs[0]), evs[1..])
  }

  // ---------------------------------------------------------------------------
  // The invariant of every reachable state
  // ---------------------------------------------------------------------------

  /** How many entries of `t` are spoken by `who`. */
  function Count(t: seq<Entry>, who: Speaker): nat
    decreases |t|
  {
    if t == [] then 0
    else Count(t[..|t| - 1], who) + (if t[|t| - 1].speaker == who then 1 else 0)
  }

  /** Every prefix of the log holds at most as many AI entries as User entries. */
  ghost predicate Answered(t: seq<Entry>) {
    forall k :: 0 <= k <= |t| ==> Count(t[..k], AI) <= Count(t[..k], User)
  }

  /**
   * (1) each AI entry answers an earlier User entry, and every request still in
   * flight belongs to a User entry that has no answer yet; (2) whatever is queued for speaking ends with the current
   * utterance, which is also in the log; (3) a recognition exists while listening, and
   * it was built with the captured `isListening` false.
   */
  ghost predicate Inv(s: Session) {
    && Count(s.transcript, AI) + s.inFlight <= Count(s.transcript, User)
    && Answered(s.transcript)
    && (s.speaking != [] ==> s.utterance == Some(s.speaking[|s.speaking| - 1]))
    && (s.utterance.Some? ==> Entry(AI, s.utterance.value) in s.transcript)
    && (s.listening ==> s.recognition.Some?)
    && (s.recognition.Some? ==> !s.recognition.value.listeningAtStart)
  }

  lemma {:induction false} CountAppend(t: seq<Entry>, e: Entry, who: Speaker)
    ensures Count(t + [e], who) == Count(t, who) + (if e.speaker == who then 1 else 0)
  {
    assert (t + [e])[..|t + [e]| - 1] == t;
  }

  /** Appending one entry keeps `Answered` when the new counts still satisfy it. */
  lemma AnsweredAppend(t: seq<Entry>, e: Entry)
    requires Answered(t)
    requires Count(t + [e], AI) <= Count(t + [e], User)
    ensures Answered(t + [e])
  {
    var u := t + [e];
    forall k | 0 <= k <= |u|
      ensures Count(u[..k], AI) <= Count(u[..k], User)
    {
      if k <= |t| {
        assert u[..k] == t[..k];
      } else {
        assert u[..k] == u;
      }
    }
  }

  lemma InitInv()
    ensures Inv(Init())
  {
    assert Init().transcript[..0] == [];
  }

  lemma ResultKeepsInv(s: Session, results: seq<seq<string>>)
    requires Inv(s) && s.recognition.Some?
    ensures Inv(OnResult(s, results))
  {
    if LastTranscript(results).Some? {
      var e := Entry(User, LastTranscript(results).value);
      CountAppend(s.transcript, e, AI);
      CountAppend(s.transcript, e, User);
      AnsweredAppend(s.transcript, e);
    }
  }

  lemma ChatDoneKeepsInv(s: Session, outcome: ChatOutcome)
    requires Inv(s) && s.inFlight > 0
    ensures Inv(OnChatDone(s, outcome))
  {
    if outcome.Reply? {
      var e := Entry(AI, outcome.text);
      CountAppend(s.transcript, e, AI);
      CountAppend(s.transcript, e, User);
      AnsweredAppend(s.transcript, e);
      var t := OnChatDone(s, outcome);
      assert t.speaking[|t.speaking| - 1] == outcome.text;
      assert t.transcript[|s.transcript|] == e;
    }
  }

  lemma SpeechEndKeepsInv(s: Session)
    requires Inv(s) && s.speaking != []
    ensures Inv(OnSpeechEnd(s))
  {
  }

  /** Every handler keeps the invariant. */
  lemma {:induction false} NextKeepsInv(s: Session, e: Event)
    requires Inv(s) && Enabled(s, e)
    ensures Inv(Next(s, e))
  {
    match e
    case Result(results) => ResultKeepsInv(s, results);
    case ChatDone(outcome) => ChatDoneKeepsInv(s, outcome);
    case SpeechEnd => SpeechEndKeepsInv(s);
    case _ =>
  }

  /** Any trace of handler calls keeps the invariant. */
  lemma {:induction false} RunKeepsInv(s: Session, evs: seq<Event>)
    requires Inv(s) && Runnable(s, evs)
    ensures Inv(Run(s, evs))
    decreases |evs|
  {
    if evs != [] {
      NextKeepsInv(s, evs[0]);
      RunKeepsInv(Next(s, evs[0]), evs[1..]);
    }
  }

  /** Every state the mounted component can reach satisfies the invariant. */
  lemma ReachableInv(evs: seq<Event>)
    requires Runnable(Init(), evs)
    ensures Inv(Run(Init(), evs))
  {
    InitInv();
    RunKeepsInv(Init(), evs);
  }

  // ---------------------------------------------------------------------------
  // What the handlers promise
  // ---------------------------------------------------------------------------

  /** Only `onresult` and a successful reply write the log, and both only append. */
  lemma {:induction false} TranscriptAppendOnly(s: Session, evs: seq<Event>)
    requires Runnable(s, evs)
    ensures |s.transcript| <= |Run(s, evs).transcript|
    ensures Run(s, evs).transcript[..|s.transcript|] == s.transcript
    decreases |evs|
  {
    if evs != [] {
      var t := Next(s, evs[0]);
      TranscriptAppendOnly(t, evs[1..]);
      assert t.transcript[..|s.transcript|] == s.transcript;
    }
  }

  /** Starting without a selected PDF only sets the status. */
  lemma StartWithoutPdf(s: Session)
    requires s.selectedPdf == ""
    ensures StartListening(s) == s.(status := NeedPdf)
    ensures StartListening(s).listening == s.listening
    ensures StartListening(s).transcript == s.transcript
    ensures StartListening(s).recognition == s.recognition
  {
  }

  /** Starting with a PDF listens on a recognition bound to that PDF; stopping ends it. */
  lemma StartThenStop(s: Session)
    requires s.selectedPdf != ""
    ensures StartListening(s).listening && StartListening(s).status == ListeningText
    ensures StartListening(s).recognition == Some(Recognition(s.listening, s.selectedPdf, true))
    ensures !StopListening(StartListening(s)).listening
    ensures StopListening(StartListening(s)).status == ""
    ensures StopListening(StartListening(s)).recognition == Some(Recognition(s.listening, s.selectedPdf, false))
  {
  }

  /** From idle with a PDF selected, two toggles come back to not listening. */
  lemma ToggleTwice(s: Session)
    requires !s.listening && s.selectedPdf != ""
    ensures ToggleListening(s).listening
    ensures !ToggleListening(ToggleListening(s)).listening
    ensures ToggleListening(ToggleListening(s)).status == ""
    ensures ToggleListening(ToggleListening(s)).transcript == s.transcript
  {
  }

  /**
   * A recognised phrase always raises `isResponding`, even when an answer is already
   * pending, and appends exactly one User entry holding the last result's first
   * alternative; the request carries that text and the recognition's PDF id.
   */
  lemma ResultAppendsUserEntry(s: Session, results: seq<seq<string>>, text: string)
    requires s.recognition.Some?
    requires |results| > 0 && |results[|results| - 1]| > 0 && results[|results| - 1][0] == text
    ensures OnResult(s, results).responding && OnResult(s, results).status == RespondingText
    ensures OnResult(s, results).transcript == s.transcript + [Entry(User, text)]
    ensures OnResult(s, results).listening == s.listening
    ensures RequestOf(s, results) == Some(ChatRequest(text, s.recognition.value.pdfId))
  {
  }

  /** A result whose transcript expression throws changes nothing and sends nothing. */
  lemma EmptyResultIgnored(s: Session, results: seq<seq<string>>)
    requires s.recognition.Some?
    requires |results| == 0 || |results[|results| - 1]| == 0
    ensures OnResult(s, results) == s && RequestOf(s, results) == None
  {
  }

  /** In a reachable state the request goes to the PDF selected when listening began. */
  lemma RequestUsesCapturedPdf(s: Session, results: seq<seq<string>>, text: string, evs: seq<Event>)
    requires Runnable(s, [Toggle] + evs) && !s.listening && s.selectedPdf != ""
    requires forall i :: 0 <= i < |evs| ==> evs[i] != Toggle
    requires Run(s, [Toggle] + evs).recognition.Some?
    requires LastTranscript(results) == Some(text)
    ensures RequestOf(Run(s, [Toggle] + evs), results) == Some(ChatRequest(text, s.selectedPdf))
  {
    assert Next(s, Toggle).recognition == Some(Recognition(false, s.selectedPdf, true));
    RecognitionPdfFixed(Next(s, Toggle), evs);
  }

  /** Without a toggle, no handler rebuilds the recognition or changes its PDF id. */
  lemma {:induction false} RecognitionPdfFixed(s: Session, evs: seq<Event>)
    requires Runnable(s, evs) && s.recognition.Some?
    requires forall i :: 0 <= i < |evs| ==> evs[i] != Toggle
    ensures Run(s, evs).recognition.Some?
    ensures Run(s, evs).recognition.value.pdfId == s.recognition.value.pdfId
    ensures Run(s, evs).recognition.value.listeningAtStart == s.recognition.value.listeningAtStart
    decreases |evs|
  {
    if evs != [] {
      assert evs[0] != Toggle;
      RecognitionPdfFixed(Next(s, evs[0]), evs[1..]);
      assert forall i :: 0 <= i < |evs[1..]| ==> evs[1..][i] == evs[i + 1];
    }
  }

  /**
   * An ok reply becomes the current utterance, is queued for speaking and appends one
   * AI entry; the utterance's end then shows "Listening..." and lowers `isResponding`.
   */
  lemma ReplyThenSpeechEnd(s: Session, reply: string)
    requires s.inFlight > 0
    ensures OnChatDone(s, Reply(reply)).utterance == Some(reply)
    ensures OnChatDone(s, Reply(reply)).transcript == s.transcript + [Entry(AI, reply)]
    ensures OnChatDone(s, Reply(reply)).speaking == s.speaking + [reply]
    ensures OnSpeechEnd(OnChatDone(s, Reply(reply))).status == ListeningText
    ensures !OnSpeechEnd(OnChatDone(s, Reply(reply))).responding
  {
  }

  /** A failed reply shows "Error occurred", lowers `isResponding` and logs nothing. */
  lemma FailureLogsNothing(s: Session)
    requires s.inFlight > 0
    ensures OnChatDone(s, Failed).status == ErrorText
    ensures !OnChatDone(s, Failed).responding
    ensures OnChatDone(s, Failed).transcript == s.transcript
    ensures OnChatDone(s, Failed).utterance == s.utterance
    ensures OnChatDone(s, Failed).speaking == s.speaking
  {
  }

  /** Interrupting always lowers `isResponding`; it silences speech only after a reply. */
  lemma InterruptCancelsOnlyWithUtterance(s: Session)
    ensures !Interrupt(s).responding && Interrupt(s).status == InterruptedText
    ensures Interrupt(s).speaking == (if s.utterance.Some? then [] else s.speaking)
    ensures Interrupt(s).transcript == s.transcript && Interrupt(s).listening == s.listening
  {
  }

  /** A recognition error only changes the status. */
  lemma ErrorOnlySetsStatus(s: Session, reason: string)
    requires s.recognition.Some?
    ensures OnRecognitionError(s, reason) == s.(status := ErrorPrefix + reason)
    ensures OnRecognitionError(s, reason).listening == s.listening
  {
  }

  /**
   * The restart in `onend` never happens: in every reachable state the engine's end
   * leaves the recognition stopped, while `isListening` and the status stay as they
   * were, so a session the engine ends on its own keeps showing "Listening...".
   */
  lemma NoAutoRestart(s: Session)
    requires Inv(s) && s.recognition.Some?
    ensures !OnRecognitionEnd(s).recognition.value.running
    ensures OnRecognitionEnd(s).listening == s.listening
    ensures OnRecognitionEnd(s).status == s.status
  {
  }

  /** A successful upload selects its PDF; a failed one only reports it. */
  lemma UploadOutcome(s: Session, success: bool, pdfId: string)
    ensures success ==> HandleFileUpload(s, success, pdfId).selectedPdf == pdfId
    ensures !success ==> HandleFileUpload(s, success, pdfId).selectedPdf == s.selectedPdf
    ensures HandleFileUpload(s, success, pdfId).status == (if success then UploadOkText else UploadFailedText)
  {
  }

  /** A complete turn: select, listen, ask, hear the answer. */
  lemma Conversation()
    ensures Runnable(Init(), [Select("doc"), Toggle, Result([["hello"]]), ChatDone(Reply("hi there")), SpeechEnd])
    ensures var t := Run(Init(), [Select("doc"), Toggle, Result([["hello"]]), ChatDone(Reply("hi there")), SpeechEnd]);
      && t.listening && !t.responding && t.status == ListeningText
      && t.transcript == [Entry(User, "hello"), Entry(AI, "hi there")]
  {
    var evs := [Select("doc"), Toggle, Result([["hello"]]), ChatDone(Reply("hi there")), SpeechEnd];
    var s1 := Next(Init(), evs[0]);
    var s2 := Next(s1, evs[1]);
    var s3 := Next(s2, evs[2]);
    var s4 := Next(s3, evs[3]);
    var s5 := Next(s4, evs[4]);
    assert evs[1..][1..][1..][1..][1..] == [];
    assert Run(s5, []) == s5;
  }
}
