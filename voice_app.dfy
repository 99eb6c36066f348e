/**
 * The `App` component as an object: its React state and refs are fields, and each
 * handler is a method that overwrites them.  Every method is specified by the
 * matching transition of `VoiceSession` and keeps that module's invariant.
 */
module VoiceApp {
  import opened Wrappers
  import opened VoiceSession

  class App {
    var isListening: bool
    var isResponding: bool
    var status: string
    var selectedPdf: string
    var transcript: seq<Entry>
    /** `utteranceRef.current`, as the text of that utterance. */
    var utterance: Option<string>
    /** The `recognition` state: the last recognition object built. */
    var recognition: Option<Recognition>
    /** The synthesiser's queue: utterances handed to `speak` whose end has not fired. */
    var speaking: seq<string>
    /** Requests to /chat whose reply has not been handled yet. */
    var inFlight: nat

    /** The fields as one value. */
    ghost function State(): Session
      reads this
    {
      Session(isListening, isResponding, status, selectedPdf, transcript, utterance, recognition, speaking, inFlight)
    }

    ghost predicate Valid()
      reads this
    {
      Inv(State())
    }

    constructor ()
      ensures State() == Init() && Valid()
    {
      isListening, isResponding, status, selectedPdf := false, false, "", "";
      transcript, utterance, recognition, speaking, inFlight := [], None, None, [], 0;
      InitInv();
    }

    method StartListening()
      requires Valid() && !isListening
      modifies this
      ensures Valid()
      ensures State() == VoiceSession.StartListening(old(State()))
      ensures old(selectedPdf) == "" ==> status == NeedPdf && unchanged(this`isListening, this`transcript, this`recognition)
      ensures old(selectedPdf) != "" ==> isListening && status == ListeningText
      ensures old(selectedPdf) != "" ==> recognition == Some(Recognition(false, selectedPdf, true))
    {
      if selectedPdf == "" {
        status := NeedPdf;
        return;
      }
      // The new recognition's handlers capture the current isListening and selectedPDF.
      recognition := Some(Recognition(isListening, selectedPdf, true));
      isListening := true;
      status := ListeningText;
      // Cleanup of the [recognition] effect once the new recognition is installed.
      if utterance.Some? {
        speaking := [];
      }
      NextKeepsInv(old(State()), Toggle);
    }

    method StopListening()
      requires Valid() && isListening
      modifies this
      ensures Valid()
      ensures State() == VoiceSession.StopListening(old(State()))
      ensures !isListening && status == ""
      ensures recognition.Some? && !recognition.value.running
    {
      if recognition.Some? {
        recognition := Some(recognition.value.(running := false));
      }
      isListening := false;
      status := "";
      NextKeepsInv(old(State()), Toggle);
    }

    method ToggleListening()
      requires Valid()
      modifies this
      ensures Valid()
      ensures State() == VoiceSession.ToggleListening(old(State()))
      ensures old(isListening) ==> !isListening && status == ""
      ensures !old(isListening) && old(selectedPdf) != "" ==> isListening && status == ListeningText
      ensures !old(isListening) && old(selectedPdf) == "" ==> !isListening && status == NeedPdf
    {
      if isListening {
        StopListening();
      } else {
        StartListening();
      }
    }

    method SelectPdf(id: string)
      requires Valid()
      modifies this
      ensures Valid()
      ensures State() == old(State()).(selectedPdf := id)
    {
      selectedPdf := id;
      NextKeepsInv(old(State()), Select(id));
    }

    /**
     * The part of `onresult` before the fetch; returns the request it sends, or None
     * when reading the transcript throws.
     */
    method OnResult(results: seq<seq<string>>) returns (request: Option<ChatRequest>)
      requires Valid() && recognition.Some?
      modifies this
      ensures Valid()
      ensures State() == VoiceSession.OnResult(old(State()), results)
      ensures request == RequestOf(old(State()), results)
      ensures LastTranscript(results).Some? ==>
        && isResponding && status == RespondingText
        && transcript == old(transcript) + [Entry(User, LastTranscript(results).value)]
        && request == Some(ChatRequest(LastTranscript(results).value, recognition.value.pdfId))
      ensures LastTranscript(results).None? ==> State() == old(State()) && request == None
    {
      if |results| == 0 || |results[|results| - 1]| == 0 {
        request := None;
        return;
      }
      var text := results[|results| - 1][0];
      status := RespondingText;
      isResponding := true;
      transcript := transcript + [Entry(User, text)];
      inFlight := inFlight + 1;
      request := Some(ChatRequest(text, recognition.value.pdfId));
      NextKeepsInv(old(State()), Result(results));
    }

    /** The part of `onresult` after the fetch settled. */
    method OnChatDone(outcome: ChatOutcome)
      requires Valid() && inFlight > 0
      modifies this
      ensures Valid()
      ensures State() == VoiceSession.OnChatDone(old(State()), outcome)
      ensures outcome.Reply? ==>
        && utterance == Some(outcome.text)
        && speaking == old(speaking) + [outcome.text]
        && transcript == old(transcript) + [Entry(AI, outcome.text)]
        && isResponding == old(isResponding) && status == old(status)
      ensures outcome.Failed? ==>
        && status == ErrorText && !isResponding
        && transcript == old(transcript) && utterance == old(utterance)
    {
      match outcome {
        case Reply(text) =>
          utterance := Some(text);
          speaking := speaking + [text];
          transcript := transcript + [Entry(AI, text)];
        case Failed =>
          status := ErrorText;
          isResponding := false;
      }
      inFlight := inFlight - 1;
      NextKeepsInv(old(State()), ChatDone(outcome));
    }

    /** `utterance.onend`. */
    method OnSpeechEnd()
      requires Valid() && speaking != []
      modifies this
      ensures Valid()
      ensures State() == VoiceSession.OnSpeechEnd(old(State()))
      ensures status == ListeningText && !isResponding && speaking == old(speaking)[1..]
    {
      speaking := speaking[1..];
      status := ListeningText;
      isResponding := false;
      NextKeepsInv(old(State()), SpeechEnd);
    }

    method InterruptAI()
      requires Valid()
      modifies this
      ensures Valid()
      ensures State() == VoiceSession.Interrupt(old(State()))
      ensures !isResponding && status == InterruptedText
      ensures speaking == if old(utterance).Some? then [] else old(speaking)
    {
      if utterance.Some? {
        speaking := [];
      }
      isResponding := false;
      status := InterruptedText;
      NextKeepsInv(old(State()), Event.InterruptAI);
    }

    method OnRecognitionError(reason: string)
      requires Valid() && recognition.Some?
      modifies this
      ensures Valid()
      ensures State() == old(State()).(status := ErrorPrefix + reason)
    {
      status := ErrorPrefix + reason;
      NextKeepsInv(old(State()), RecognitionError(reason));
    }

    /** `onend`: restarts only if the captured `isListening` was true, which it never is. */
    method OnRecognitionEnd()
      requires Valid() && recognition.Some?
      modifies this
      ensures Valid()
      ensures State() == VoiceSession.OnRecognitionEnd(old(State()))
      ensures State() == old(State()).(recognition := Some(old(recognition).value.(running := false)))
    {
      var r := recognition.value;
      // The engine has ended; `start()` again exactly when the captured flag is set.
      recognition := Some(r.(running := r.listeningAtStart));
      NextKeepsInv(old(State()), RecognitionEnd);
    }

    method HandleFileUpload(success: bool, pdfId: string)
      requires Valid()
      modifies this
      ensures Valid()
      ensures State() == VoiceSession.HandleFileUpload(old(State()), success, pdfId)
      ensures success ==> selectedPdf == pdfId && status == UploadOkText
      ensures !success ==> selectedPdf == old(selectedPdf) && status == UploadFailedText
    {
      if success {
        selectedPdf := pdfId;
        status := UploadOkText;
      } else {
        status := UploadFailedText;
      }
      NextKeepsInv(old(State()), Upload(success, pdfId));
    }

    /** Unmounting: stop the recognition and silence any speech. */
    method Teardown()
      requires Valid()
      modifies this
      ensures Valid()
      ensures State() == VoiceSession.Teardown(old(State()))
      ensures recognition.Some? ==> !recognition.value.running
      ensures utterance.Some? ==> speaking == []
    {
      if recognition.Some? {
        recognition := Some(recognition.value.(running := false));
      }
      if utterance.Some? {
        speaking := [];
      }
    }
  }
}
