# Real-time transcriber and conversational agent: a Dafny model

This project models the deterministic core of a small voice assistant. The assistant has three parts:

- a real-time Whisper transcriber (`RealTimeTranscriber` in `main.py`);
- a conversational agent that chains speech-to-text, a Groq chat model and text-to-speech (`conversational_agent.py`);
- a plain Groq text chatbot (`groq_chatbot.py`).

The model keeps the bookkeeping and leaves out the audio drivers, threads, clocks and HTTP calls:

- **Chunk assembly.** A microphone callback queues PCM frames while recording is on. The worker thread pulls the frames of one time window and concatenates them in arrival order. It prepends the overlap buffer left by the previous chunk and keeps the chunk's last `overlap_size` samples as the next buffer. The chunk is gated on length (half a second) and loudness (mean absolute amplitude 0.001) before Whisper is called. Only a stripped text longer than one character is printed.
- **Turn rules.** Replies longer than 1000 characters are shortened for speech. Transcripts are filtered and queued for the voice mode, and the voice mode swaps in its own chunk handler without the gates. Both modes check for `exit`/`quit`, and the microphone prompt picks a device number.
- **Conversation history.** `chat_with_groq` appends to the conversation list, and the text chatbot's loop decides which lines reach it.

Files:

- `wrappers.dfy`: `Option`.
- `text.dfy`: module `Text`. Python's `str.strip()` with the full `str.isspace()` character set, `str.lower()` on ASCII letters, and `int()` on signed decimal strings.
- `transcriber.dfy`: module `Transcriber`, for `main.py`.
- `chatbot.dfy`: module `Chatbot`, for `groq_chatbot.py`.
- `agent.dfy`: module `Agent`, for `conversational_agent.py`.

Samples are the int16 values the device delivers, held in `seq<int>`. Whisper is the function parameter `transcribe: seq<int> -> Transcription`, which returns a text or `Raised`. A chat request is the parameter `HttpOutcome`: `Replied(content)`, `HttpError` or `UnexpectedError`. Wall-clock time is replaced by the number of frames that arrive during one accumulation window.

Three points of the code's behaviour that are easy to get wrong:

- `start_recording` sets `is_recording` before it opens the stream. If opening fails, the flag stays set and the error propagates (`StartRecording`). The state is not returned to idle.
- The length gate counts the overlap prefix. With the defaults (overlap 8000 samples, gate 8000 samples), no chunk is rejected as too short once the buffer has filled (`LengthGateOnlyBeforeOverlap`).
- For a positive overlap a short chunk never leaves a stale buffer. The buffer is either empty or exactly `overlap_size` long. Once it is full, every later chunk is longer than the overlap and refreshes it (`BufferShape`, `ConsecutiveChunksOverlap`, `WorkerKeepsBufferShape`).

## Model

| member | source | states |
|---|---|---|
| Transcriber.Configure | main.py:24-26 | `chunk_size` and `overlap_size` are `int(16000 * seconds)`: the sample count truncated toward zero, non-negative for non-negative durations and non-positive for a negative overlap |
| Transcriber.TruncToInt | main.py:25-26 | Python's `int()` of a float lies within one of its argument, on the zero side |
| Transcriber.DefaultConfig | main.py:12-26 | the default 3 s chunk and 0.5 s overlap give 48000 and 8000 samples |
| Transcriber.SelectModel | main.py:189-198 | a model name is accepted exactly when it is one of the fourteen listed names, and it is kept unchanged |
| Transcriber.SelectModelRejectsCapitals | main.py:189-198 | the check is case-sensitive: every listed name is lower case, so any name with an ASCII capital is rejected |
| Transcriber.ModelChoices | main.py:173-198 | the default `medium` and the voice mode's `tiny` are accepted; `large-v4` and the case variant `Medium` are rejected |
| Transcriber.AudioCallback | main.py:74-80 | the callback always returns "continue"; while recording it appends the frame to the queue and leaves the flags, buffer and device index alone, otherwise it changes nothing |
| Transcriber.Deliver | main.py:74-80 | the callback run once per frame never touches the flags, the overlap buffer or the device index; `DeliverIsFifo` gives the queue it leaves |
| Transcriber.DeliverIsFifo | main.py:76-79 | frames delivered while recording end up behind the queued ones in delivery order, none lost or duplicated; frames delivered while not recording leave no trace |
| Transcriber.PullWindow | main.py:89-97 | a window takes the oldest queued frames, as many as arrived or all queued; taken frames followed by the rest are exactly the old queue |
| Transcriber.Flatten | main.py:93-95 | `audio_chunk.extend(data)` over a window keeps every frame: each frame is no longer than the concatenation, and `FlattenAppend` shows concatenation distributes over windows |
| Transcriber.FlattenEmpty | main.py:95-99 | a window yields no samples, and so no chunk, exactly when every frame in it is empty |
| Transcriber.PyTail | main.py:108 | `s[-k:]` is a suffix of `s` of length `k` when `0 < k <= len(s)`; it is all of `s` when `k == 0` or `k > len(s)`; it drops the first `-k` samples when `k < 0` |
| Transcriber.Assemble | main.py:99-108 | no chunk from a window without samples; otherwise the chunk is the old buffer followed by the new samples; the buffer becomes the chunk's last `overlap_size` samples only if the chunk is longer than that, and is otherwise kept; with overlap 0 it becomes the whole chunk |
| Transcriber.MeanAbsAmplitude | main.py:124 | `np.abs(x).mean()` over the samples scaled by 1/32768 is never negative, and is zero exactly for an all-zero chunk |
| Transcriber.QuietIntegerForm | main.py:124 | the mean of `abs(x / 32768)` is below 0.001 exactly when `1000 * sum(abs(x)) < 32768 * n` |
| Transcriber.TranscribeChunk | main.py:116-137 | a chunk under 8000 samples, or a quiet one, never reaches Whisper; a Whisper exception is swallowed; text is emitted exactly when the chunk passes both gates and the stripped transcript has more than one character, and the emitted text is that stripped transcript |
| Transcriber.WorkerIteration | main.py:82-111 | nothing happens once `is_transcribing` is false; an iteration consumes a prefix of the queue, the window `PullWindow` takes, and leaves the flags and device index alone; the chunk and the new buffer are what the overlap step gives on that window, so a chunk strictly extends the old buffer with the pulled samples and goes through the gated handler; with no chunk the buffer is unchanged |
| Transcriber.WorkerIterationIsRunStep | main.py:86-111 | one worker iteration is one step of `Run` on the window it pulls: same chunk, same final buffer |
| Transcriber.WorkerKeepsBufferShape | main.py:103-108 | with a positive overlap, a worker iteration keeps the buffer empty or exactly `overlap_size` long |
| Transcriber.StartRecording | main.py:49-72 | `is_recording` is raised whether or not the device opens; the start succeeds exactly when the device opens, and then the worker raises `is_transcribing` and the stream is on the default device; queue, buffer and `device_index` are kept |
| Transcriber.DeviceIndexNeverRead | main.py:49-61 | two transcribers differing only in `device_index` start identically and open the same device |
| Transcriber.StartedIsLive | main.py:49-108 | after a successful start every delivered frame is queued in order, and a worker iteration yields a chunk exactly when the frames it pulls carry samples |
| Transcriber.IntendedStartRecording | main.py:54-61 | the intended start differs from `start_recording` only in the device: the one `device_index` names, or the default while unset |
| Transcriber.StopRecording | main.py:139-143 | both flags are lowered; queue, overlap buffer and device index are untouched |
| Transcriber.StoppedIsInert | main.py:76-86 | after a stop, delivered frames are not queued and a worker iteration changes nothing |
| Transcriber.Run | main.py:86-111 | the worker loop over successive windows never yields more chunks than it pulled windows |
| Transcriber.RunChunkCount | main.py:86-111 | the worker loop yields exactly one chunk per window that carries samples, whatever the buffer it starts from |
| Transcriber.AssembleShape | main.py:99-108 | with a positive overlap, one step keeps the buffer empty or `overlap_size` long; a chunk longer than the overlap hands on its last `overlap_size` samples; from a full buffer the chunk is longer than the overlap and starts with the buffer |
| Transcriber.BufferShape | main.py:103-108 | with a positive overlap the buffer is always empty or exactly `overlap_size` long; once full, every later chunk is longer than the overlap |
| Transcriber.FirstChunkAfterFullBuffer | main.py:99-104 | from a full buffer, the next chunk is longer than the overlap and starts with the buffer |
| Transcriber.ConsecutiveChunksOverlap | main.py:99-108 | whenever a chunk is longer than `overlap_size`, the next chunk is longer too, and its first `overlap_size` samples equal the previous chunk's last `overlap_size` samples |
| Transcriber.LengthGateOnlyBeforeOverlap | main.py:103-121 | with an overlap of at least 8000 samples and a full buffer, no later chunk is rejected by the length gate |
| Transcriber.ZeroOverlapKeepsHistory | main.py:107-108 | with `overlap_size == 0` the final buffer is the starting buffer followed by every sample received, so it grows without bound |
| Transcriber.ZeroOverlapChunksGrow | main.py:103-108 | with `overlap_size == 0` each chunk strictly extends the starting buffer and the chunk before it |
| Transcriber.CorrectedAssemble | main.py:107-108 | the corrected step agrees with main.py's step for every positive overlap; for a zero or negative overlap it carries nothing over |
| Transcriber.CorrectedRun | main.py:107-108 | the worker loop with the corrected overlap step yields one chunk per window that carries samples |
| Transcriber.CorrectedRunAgrees | main.py:107-108 | for every positive overlap the corrected loop is main.py's worker loop, chunk for chunk and buffer for buffer |
| Transcriber.CorrectedZeroOverlapIsMemoryless | main.py:107-108 | under the corrected loop with a zero or negative overlap, from an empty buffer each chunk is exactly its own window's samples and the buffer stays empty |
| Text.Strip | main.py:131 | `strip()` removes leading and trailing whitespace only: the result is a slice of the input, the removed margins are all whitespace, and the result neither starts nor ends with whitespace |
| Text.TrimStart | main.py:131 | stripping the leading whitespace keeps a suffix of the input, the removed part is all whitespace, and the result starts with non-whitespace or is empty |
| Text.TrimEnd | main.py:131 | stripping the trailing whitespace keeps a prefix of the input, the removed part is all whitespace, and the result ends with non-whitespace or is empty |
| Text.StripUnique | conversational_agent.py:43-45 | any trimming with whitespace-only margins and non-whitespace ends is the one `strip()` computes |
| Text.StripIdempotent | conversational_agent.py:69-73 | stripping an already stripped text changes nothing, so the second `strip()` in `on_transcription` is harmless |
| Text.BlankIffAllSpace | groq_chatbot.py:51 | `not s.strip()` holds exactly when every character is whitespace |
| Text.ExitWordSpellings | conversational_agent.py:83 | `s.lower() in ("exit", "quit")` holds exactly for the mixed-case spellings of the two words; surrounding whitespace defeats it |
| Text.ParseInt | conversational_agent.py:29-31 | `int()` of a non-empty digit string is its decimal value; a string is accepted exactly when it is digits, or a `+` or `-` followed by at least one digit, and nothing else; an unsigned or `+` string never gives a negative number; the empty string is rejected |
| Text.ParseSigned | conversational_agent.py:29 | for every digit string, a leading `+` gives the same result as none, a leading `-` gives the negated value, and a bare `-` is rejected |
| Text.ParseDecimalRoundTrip | conversational_agent.py:29 | `int(str(n)) == n` and `int("-" + str(n)) == -n` |
| Chatbot.ChatWithGroq | groq_chatbot.py:16-40 | a missing conversation starts empty; the old entries are kept as a prefix; the user entry comes next; on success the assistant reply follows it and is returned (growth 2); on any error the reply is `None` and the growth is 1 |
| Chatbot.ChatAddsOneUserEntry | groq_chatbot.py:19-31 | the user entries after a call are the old ones followed by the message sent, whatever the outcome |
| Chatbot.ChatKeepsWellFormed | groq_chatbot.py:19-31 | every assistant entry directly follows a user entry, before and after a call |
| Chatbot.ChatbotInput | groq_chatbot.py:50-56 | a whitespace-only line is skipped; a line lowercasing to `exit`/`quit` ends the loop; every other line is sent to the chat |
| Chatbot.ExitWordIsNotBlank | groq_chatbot.py:51-53 | an exit word is never whitespace-only, so the two checks never compete |
| Chatbot.ChatbotMain | groq_chatbot.py:42-56 | with the placeholder API key nothing is sent; with any other key the loop runs from an empty conversation |
| Chatbot.ChatbotMainSendsAcceptedLines | groq_chatbot.py:42-56 | `main` sends nothing under the placeholder key, and otherwise exactly the non-blank lines typed before the first exit word, in a well-formed conversation |
| Chatbot.ChatSession | groq_chatbot.py:49-56 | the loop never shortens the conversation and adds at most two entries per line typed: a user line and a reply |
| Chatbot.ChatSessionFollowsInput | groq_chatbot.py:49-56 | the session treats its first line exactly as one pass of the loop does: it skips a blank line, stops at an exit word, and otherwise continues from the conversation the chat call returns |
| Chatbot.ChatSessionAppendOnly | groq_chatbot.py:47-56 | a session never modifies or reorders existing entries; it only appends |
| Chatbot.ChatSessionSendsAcceptedLines | groq_chatbot.py:49-56 | the user entries a session adds are exactly the non-blank lines typed before the first exit word, in order |
| Chatbot.ChatSessionWellFormed | groq_chatbot.py:49-56 | a session keeps every assistant entry directly after a user entry |
| Agent.TruncateForSpeech | conversational_agent.py:13-16 | text of at most 1000 characters is unchanged; longer text becomes its first 1000 characters followed by `...`, 1003 in all |
| Agent.TruncateIdempotent | conversational_agent.py:14-16 | what is spoken is at most 1003 characters long, and truncating it again changes nothing |
| Agent.OnTranscription | conversational_agent.py:42-46 | the stripped text is queued exactly when it has more than one character; nothing else is queued |
| Agent.OnTranscriptionKeepsQueueClean | conversational_agent.py:42-46 | every queued user text is stripped and longer than one character |
| Agent.PatchedTranscribeChunk | conversational_agent.py:66-75 | a Whisper exception queues nothing |
| Agent.PatchedQueuesStrippedText | conversational_agent.py:66-75 | the patched handler queues the stripped transcript exactly when it has more than one character, whatever the chunk's length or loudness |
| Agent.PatchedBypassesGates | conversational_agent.py:66-76 | a one-sample silent chunk `[0]`, which the original handler rejects as too short, is transcribed under the patch and its text queued |
| Agent.SelectMicrophone | conversational_agent.py:25-32 | an empty answer and a non-integer answer both give device index -1; an integer answer gives its value |
| Agent.SelectMicrophoneRoundTrip | conversational_agent.py:28-31 | typing the decimal form of a device number selects that number |
| Agent.ApplyDeviceIndex | conversational_agent.py:62-64 | the chosen index becomes the transcriber's `device_index` only when it is not -1, and nothing else about the transcriber changes |
| Agent.DeviceChoiceIgnored | conversational_agent.py:62-64 | choosing device 2 sets `device_index` to 2, yet `start_recording` opens the default device |
| Agent.IntendedDeviceHonoursChoice | conversational_agent.py:28-31 | under the intended start, typing device `n` opens device `n`, and an empty answer opens the default |
| Agent.Respond | conversational_agent.py:86-89 | the text is sent to the chat; a reply is spoken exactly when it is present and non-empty, truncated for speech |
| Agent.VoiceTurn | conversational_agent.py:77-89 | a turn waits while the user queue is empty; otherwise it takes the oldest text; an exit word ends the session before any chat call; anything else is sent and answered |
| Agent.VoiceTurnConsumesOne | conversational_agent.py:79-86 | a voice turn consumes exactly one queued text, and an answered turn adds exactly that text as a user entry |
| Agent.TextTurn | conversational_agent.py:107-116 | a line lowercasing to `exit`/`quit` leaves before any chat call; every other line, blank ones included, is sent |
| Agent.TextSession | conversational_agent.py:105-111 | the text-mode loop keeps the conversation as a prefix and adds at most two entries per line typed |
| Agent.TextSessionSendsEveryLine | conversational_agent.py:105-111 | the user entries the text mode adds are exactly the lines typed before the first exit word, blank lines included |

## Findings

| source | as written | input that shows it | evidently intended | confidence | as-written member | corrected member |
|---|---|---|---|---|---|---|
| main.py:107-108 | `self.audio_buffer = audio_chunk[-self.overlap_size:]`; with `overlap_size == 0`, `[-0:]` is the whole chunk | `--overlap 0`, or any overlap shorter than 1/16000 s such as `--overlap 0.00005` (both give `overlap_size == 0`), and any two windows with samples: the second chunk repeats all of the first, and the buffer keeps every sample since start | an overlap of 0 carries nothing over | high; not executed | Transcriber.ZeroOverlapKeepsHistory | Transcriber.CorrectedRun |
| conversational_agent.py:63-64 | `transcriber.device_index = device_index`, but `start_recording` (main.py:54-61) never passes it to `audio.open` | answer `2` at the microphone prompt: the default device is still opened | the chosen device is opened | high; not executed | Agent.DeviceChoiceIgnored | Transcriber.IntendedStartRecording |

The session-level `Transcriber.Run` keeps main.py's overlap step, so it reproduces the program as written. `CorrectedAssemble` and `CorrectedRun` are identical to it for every configuration whose `overlap_size` is positive. `overlap_size` is zero not only for `--overlap 0` but for any overlap shorter than 1/16000 s in either direction, and negative for an overlap of -1/16000 s or less.

## Left out

- Transcriber.Configure: computes `16000 * seconds` in exact real arithmetic, while Python multiplies IEEE doubles before `int()` truncates. The two can differ by one sample: `--overlap 1.001` gives 16016 here, but the double product is 16015.999999999998, so Python gives 16015. Infinite and NaN durations, for which `int()` raises, cannot be represented. The defaults 3.0 and 0.5 are exact in binary and agree (`DefaultConfig`).
- Audio device I/O is not modelled: opening, starting, stopping and closing the PyAudio stream, `terminate`, `list_microphones` and `__del__`. Only whether the device opens enters the model, as a parameter of `StartRecording`. A second `stop_recording` repeats these driver calls, so no idempotence is claimed.
- Whisper is not modelled: `load_model` and `transcribe` become the `transcribe` parameter.
- The Groq and Deepgram HTTP requests, API keys, `.env` loading, WAV writing and playback are not modelled. A chat request is its `HttpOutcome`, and speech is the text handed to it (`Response.spoken`).
- Threads, `queue.Queue` timeouts, the wall-clock window, the 0.1 s poll, `recording_indicator` and `threading.Event` are not modelled. One window is a given number of arriving frames. In the model, the frames a callback delivers during a window are taken by the next window.
- Transcriber.StartRecording: the worker thread raises `is_transcribing` asynchronously (main.py:84). The model raises it as part of a successful start.
- Float details are not modelled: the int16-to-float32 division and the float rounding of `mean` are exact real arithmetic here. The constant 0.001 is compared exactly.
- Text.ParseInt: accepts only an optional sign followed by ASCII digits. Python's `int()` also accepts surrounding whitespace, underscores between digits and non-ASCII digits, and those inputs give -1 in the model instead of a device number.
- Text.LowerChar: lowercases ASCII letters only. For the `exit`/`quit` comparisons this is exact, because no other character lowercases to a single one of the letters e, x, i, t, q, u. Other uses of `lower()` are not modelled.
- CLI glue is not modelled: argparse, the mode menu, printing, timestamps and timing printouts.
- The KeyboardInterrupt and OSError handling of the voice loop (conversational_agent.py:90-102) is not modelled. It only prints and leaves the loop.
- `chunk_size` is computed but never used to bound a chunk. Chunks are time-boxed, so the model has no length cap either.
