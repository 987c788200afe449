/**
 * The turn and text rules of the conversational agent
 * (conversational_agent.py): the text-to-speech truncation, the transcript
 * filter that feeds the user queue, the chunk handler the voice mode patches
 * into each transcriber, the `exit`/`quit` checks of both modes, and the
 * microphone choice.
 */
module Agent {
  import opened Wrappers
  import Text
  import Transcriber
  import Chatbot

  /** The longest reply sent to speech synthesis unshortened. */
  const SpeechLimit: nat := 1000

  /**
   * `text_to_speech`'s guard: a reply over 1000 characters is cut to its
   * first 1000 characters followed by "...".
   */
  function TruncateForSpeech(text: string): (r: string)
    ensures |text| <= SpeechLimit ==> r == text
    ensures |text| > SpeechLimit ==> |r| == SpeechLimit + 3 && r[..SpeechLimit] == text[..SpeechLimit] && r[SpeechLimit..] == "..."
  {
    if |text| > SpeechLimit then text[..SpeechLimit] + "..." else text
  }

  /**
   * Truncation is idempotent and bounded: what is sent to speech is never
   * longer than 1003 characters, and truncating it again changes nothing.
   */
  lemma TruncateIdempotent(text: string)
    ensures |TruncateForSpeech(text)| <= SpeechLimit + 3
    ensures TruncateForSpeech(TruncateForSpeech(text)) == TruncateForSpeech(text)
  {
    var r := TruncateForSpeech(text);
    if |text| > SpeechLimit {
      assert r == r[..SpeechLimit] + r[SpeechLimit..];
    }
  }

  /** Every queued user text is stripped and longer than one character. */
  predicate CleanQueue(userQueue: seq<string>) {
    forall i :: 0 <= i < |userQueue| ==> |userQueue[i]| > 1 && Text.Strip(userQueue[i]) == userQueue[i]
  }

  /**
   * `on_transcription`: the stripped text is queued when it is longer than
   * one character; nothing is queued otherwise.
   */
  function OnTranscription(userQueue: seq<string>, text: string): (q: seq<string>)
    ensures |Text.Strip(text)| > 1 ==> q == userQueue + [Text.Strip(text)]
    ensures |Text.Strip(text)| <= 1 ==> q == userQueue
  {
    if text != [] && |Text.Strip(text)| > 1 then userQueue + [Text.Strip(text)] else userQueue
  }

  /** `on_transcription` only ever queues clean texts. */
  lemma OnTranscriptionKeepsQueueClean(userQueue: seq<string>, text: string)
    requires CleanQueue(userQueue)
    ensures CleanQueue(OnTranscription(userQueue, text))
  {
    var q := OnTranscription(userQueue, text);
    if |Text.Strip(text)| > 1 {
      Text.StripIdempotent(text);
      forall i | 0 <= i < |q| ensures |q[i]| > 1 && Text.Strip(q[i]) == q[i] {
        if i < |userQueue| {
          assert q[i] == userQueue[i];
        } else {
          assert q[i] == Text.Strip(text);
        }
      }
    }
  }

  /**
   * The voice mode's replacement for `_transcribe_chunk`: Whisper is called
   * on every chunk, with no length or silence gate, and a stripped text
   * longer than one character goes to `on_transcription`.
   */
  function PatchedTranscribeChunk(chunk: seq<int>, transcribe: seq<int> -> Transcriber.Transcription, userQueue: seq<string>): (q: seq<string>)
    ensures transcribe(chunk).Raised? ==> q == userQueue
  {
    match transcribe(chunk)
    case Raised => userQueue
    case Transcript(raw) =>
      var text := Text.Strip(raw);
      if text != [] && |text| > 1 then OnTranscription(userQueue, text) else userQueue
  }

  /**
   * The patched handler queues exactly the stripped transcript, and exactly
   * when it has more than one character, whatever the chunk's length or
   * loudness.
   */
  lemma PatchedQueuesStrippedText(chunk: seq<int>, transcribe: seq<int> -> Transcriber.Transcription, userQueue: seq<string>)
    ensures var q := PatchedTranscribeChunk(chunk, transcribe, userQueue);
      match transcribe(chunk)
      case Raised => q == userQueue
      case Transcript(raw) =>
        q == if |Text.Strip(raw)| > 1 then userQueue + [Text.Strip(raw)] else userQueue
  {
    if transcribe(chunk).Transcript? {
      Text.StripIdempotent(transcribe(chunk).text);
    }
  }

  /**
   * The gates are gone: a one-sample silent chunk, which the original
   * handler rejects as too short, still reaches Whisper under the patch and
   * its text is queued.
   */
  lemma PatchedBypassesGates()
    ensures var hello := (c: seq<int>) => Transcriber.Transcript("hello");
      && Transcriber.TranscribeChunk([0], hello) == Transcriber.TooShort
      && PatchedTranscribeChunk([0], hello, []) == ["hello"]
  {
    var hello := (c: seq<int>) => Transcriber.Transcript("hello");
    assert "hello"[0..5] == "hello";
    Text.StripUnique("hello", 0, "hello");
    PatchedQueuesStrippedText([0], hello, []);
  }

  /**
   * `select_microphone`: an empty answer and an answer `int()` rejects both
   * give -1, the "default device" index; a number gives that number.
   */
  function SelectMicrophone(answer: string): (index: int)
    ensures answer == [] ==> index == -1
    ensures Text.ParseInt(answer).None? ==> index == -1
    ensures Text.ParseInt(answer).Some? ==> index == Text.ParseInt(answer).value
  {
    if answer == [] then -1
    else
      match Text.ParseInt(answer)
      case Some(n) => n
      case None => -1
  }

  /** Typing the decimal form of a device number selects that device. */
  lemma SelectMicrophoneRoundTrip(n: nat)
    ensures SelectMicrophone(Text.Decimal(n)) == n
  {
    Text.ParseDecimalRoundTrip(n);
  }

  /** The chosen index is set as the transcriber's `device_index` only when it is not -1. */
  function ApplyDeviceIndex(r: Transcriber.Recorder, index: int): (s: Transcriber.Recorder)
    ensures index != -1 ==> s.deviceIndex == Some(index)
    ensures index == -1 ==> s == r
    ensures s.(deviceIndex := r.deviceIndex) == r
  {
    if index != -1 then r.(deviceIndex := Some(index)) else r
  }

  /**
   * Choosing device 2 at the prompt records it on the transcriber, yet
   * `start_recording` opens the default device.
   */
  lemma DeviceChoiceIgnored()
    ensures var r := ApplyDeviceIndex(Transcriber.Initial, SelectMicrophone("2"));
      && r.deviceIndex == Some(2)
      && Transcriber.StartRecording(r, true).device == None
  {
    SelectMicrophoneRoundTrip(2);
    assert Text.Decimal(2) == "2";
  }

  /**
   * Under the intended opening, typing the number of a device opens that
   * device, and an empty answer opens the default one.
   */
  lemma IntendedDeviceHonoursChoice(n: nat)
    ensures var r := ApplyDeviceIndex(Transcriber.Initial, SelectMicrophone(Text.Decimal(n)));
      Transcriber.IntendedStartRecording(r, true).device == Some(n)
    ensures var r := ApplyDeviceIndex(Transcriber.Initial, SelectMicrophone(""));
      Transcriber.IntendedStartRecording(r, true).device == None
  {
    SelectMicrophoneRoundTrip(n);
  }

  /** A chat reply and what is spoken of it. */
  datatype Response = Response(conversation: seq<Chatbot.Message>, spoken: Option<string>)

  /**
   * The part both modes share: send the text, and speak the reply when it
   * is truthy, that is, present and non-empty.
   */
  function Respond(text: string, conversation: seq<Chatbot.Message>, outcome: Chatbot.HttpOutcome): (r: Response)
    ensures r.conversation == Chatbot.ChatWithGroq(text, Some(conversation), outcome).conversation
    ensures r.spoken.Some? <==> outcome.Replied? && outcome.content != []
    ensures r.spoken.Some? ==> r.spoken.value == TruncateForSpeech(outcome.content)
  {
    var result := Chatbot.ChatWithGroq(text, Some(conversation), outcome);
    var spoken := match result.reply
      case Some(reply) => if reply != [] then Some(TruncateForSpeech(reply)) else None
      case None => None;
    Response(result.conversation, spoken)
  }

  /** How one voice turn ended. */
  datatype VoiceStep =
    | Waiting                                                          // `user_queue.get()` is still blocked
    | SessionEnded(userQueue: seq<string>)
    | Answered(userQueue: seq<string>, response: Response)

  /**
   * One voice turn after the transcriber has run: take the oldest queued
   * text; an exit word ends the session before any chat call, anything else
   * is sent and the reply spoken.
   */
  function VoiceTurn(userQueue: seq<string>, conversation: seq<Chatbot.Message>, outcome: Chatbot.HttpOutcome): (s: VoiceStep)
    ensures s.Waiting? <==> userQueue == []
    ensures s.SessionEnded? <==> userQueue != [] && Text.IsExitWord(userQueue[0])
    ensures !s.Waiting? ==> s.userQueue == userQueue[1..]
    ensures s.Answered? ==> s.response == Respond(userQueue[0], conversation, outcome)
  {
    if userQueue == [] then Waiting
    else
      var text := userQueue[0];
      if Text.IsExitWord(text) then SessionEnded(userQueue[1..])
      else Answered(userQueue[1..], Respond(text, conversation, outcome))
  }

  /**
   * A voice turn consumes exactly one queued text; the conversation grows
   * only when that text is not an exit word, and then by its own user entry.
   */
  lemma VoiceTurnConsumesOne(userQueue: seq<string>, conversation: seq<Chatbot.Message>, outcome: Chatbot.HttpOutcome)
    requires userQueue != []
    ensures var s := VoiceTurn(userQueue, conversation, outcome);
      && |s.userQueue| == |userQueue| - 1
      && (s.Answered? ==>
            Chatbot.UserContents(s.response.conversation) == Chatbot.UserContents(conversation) + [userQueue[0]])
  {
    Chatbot.ChatAddsOneUserEntry(userQueue[0], conversation, outcome);
  }

  /** How one text-mode turn ended. */
  datatype TextStep = Leave | Spoke(response: Response)

  /**
   * One pass of `text_to_voice`'s loop: an exit word leaves, anything else,
   * a blank line included, is sent.
   */
  function TextTurn(input: string, conversation: seq<Chatbot.Message>, outcome: Chatbot.HttpOutcome): (s: TextStep)
    ensures s.Leave? <==> Text.IsExitWord(input)
    ensures s.Spoke? ==> s.response == Respond(input, conversation, outcome)
  {
    if Text.IsExitWord(input) then Leave else Spoke(Respond(input, conversation, outcome))
  }

  /** `text_to_voice`'s loop over the lines typed. */
  function TextSession(turns: seq<Chatbot.Turn>, conversation: seq<Chatbot.Message>): (c: seq<Chatbot.Message>)
    ensures |conversation| <= |c| <= |conversation| + 2 * |turns|
    ensures c[..|conversation|] == conversation
    decreases |turns|
  {
    if turns == [] then conversation
    else
      match TextTurn(turns[0].input, conversation, turns[0].outcome)
      case Leave => conversation
      case Spoke(r) => TextSession(turns[1..], r.conversation)
  }

  /**
   * Unlike the text chatbot, the text mode sends every line typed before the
   * first exit word, whitespace-only lines included.
   */
  lemma {:induction false} TextSessionSendsEveryLine(turns: seq<Chatbot.Turn>, conversation: seq<Chatbot.Message>)
    ensures Chatbot.UserContents(TextSession(turns, conversation))
         == Chatbot.UserContents(conversation) + Chatbot.BeforeExit(Chatbot.Inputs(turns))
    decreases |turns|
  {
    if turns != [] {
      var t := turns[0];
      var lines := Chatbot.Inputs(turns);
      assert lines == [t.input] + Chatbot.Inputs(turns[1..]);
      assert lines[0] == t.input && lines[1..] == Chatbot.Inputs(turns[1..]);
      match TextTurn(t.input, conversation, t.outcome)
      case Leave =>
      case Spoke(r) =>
        TextSessionSendsEveryLine(turns[1..], r.conversation);
        Chatbot.ChatAddsOneUserEntry(t.input, conversation, t.outcome);
    }
  }
}
