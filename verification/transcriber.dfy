/**
 * The chunk bookkeeping of `RealTimeTranscriber` (main.py): the sizes the
 * constructor derives, the audio callback that feeds the frame queue, one
 * iteration of the transcription worker (pull a window of frames, prepend the
 * overlap buffer, keep the tail as the next overlap), the length and silence
 * gates in front of Whisper, and the recording flags.
 *
 * Samples are the int16 values PyAudio delivers; the division by 32768 that
 * turns them into floats only matters to the silence gate, where it is written
 * out. Whisper is the parameter `transcribe`; time is abstracted into the
 * number of frames that arrive within one accumulation window.
 */
module Transcriber {
  import opened Wrappers
  import Text

  /** Fixed capture rate, in samples per second. */
  const SampleRate: int := 16000

  /**
   * The smallest chunk the gated handler transcribes: `sample_rate * 0.5`.
   * The float product 8000.0 is exact, so comparing a whole length with it
   * is comparing with this integer.
   */
  const MinChunkSamples: int := SampleRate / 2

  /** The silence threshold on the mean absolute amplitude of the float samples. */
  const SilenceThreshold: real := 0.001

  /** The float scale of int16 PCM: a sample `x` becomes `x / 32768.0`. */
  const PcmScale: real := PcmRange as real

  /** The magnitude of int16's most negative value. */
  const PcmRange: int := 32768

  /** Whisper model names `main` accepts. */
  const AvailableModels: seq<string> := [
    "tiny.en", "tiny", "base.en", "base", "small.en", "small",
    "medium.en", "medium", "large-v1", "large-v2", "large-v3",
    "large", "large-v3-turbo", "turbo"
  ]

  type Frame = seq<int>

  /** The signal the callback hands back to PyAudio. */
  datatype Signal = Continue

  /** What one call to Whisper produced: a text, or an exception. */
  datatype Transcription = Transcript(text: string) | Raised

  /** The sizes the constructor derives from its float arguments. */
  datatype Config = Config(chunkSize: int, overlapSize: int)

  /**
   * The transcriber's mutable state: the two flags, the frame queue (oldest
   * frame first), the overlap buffer `audio_buffer`, and the `device_index`
   * attribute a caller may set (`None` while it is unset).
   */
  datatype Recorder = Recorder(isRecording: bool, isTranscribing: bool, queue: seq<Frame>, buffer: seq<int>, deviceIndex: Option<int>)

  /** A freshly constructed transcriber: flags down, queue and buffer empty, no device index. */
  const Initial: Recorder := Recorder(false, false, [], [], None)

  /** Python's `int()` of a float: truncation toward zero. */
  function TruncToInt(x: real): (n: int)
    ensures 0.0 <= x ==> 0 <= n && n as real <= x < n as real + 1.0
    ensures x < 0.0 ==> n <= 0 && n as real - 1.0 < x <= n as real
  {
    if x >= 0.0 then x.Floor else -((-x).Floor)
  }

  /** `chunk_size` and `overlap_size` as the constructor computes them. */
  function Configure(chunkDuration: real, overlap: real): (c: Config)
    ensures 0.0 <= chunkDuration ==>
      0 <= c.chunkSize && c.chunkSize as real <= 16000.0 * chunkDuration < c.chunkSize as real + 1.0
    ensures 0.0 <= overlap ==>
      0 <= c.overlapSize && c.overlapSize as real <= 16000.0 * overlap < c.overlapSize as real + 1.0
    ensures overlap < 0.0 ==> c.overlapSize <= 0
  {
    Config(TruncToInt(SampleRate as real * chunkDuration), TruncToInt(SampleRate as real * overlap))
  }

  /** The defaults (3 s chunks, 0.5 s overlap) give 48000 and 8000 samples. */
  lemma DefaultConfig()
    ensures Configure(3.0, 0.5) == Config(48000, 8000)
  {
  }

  /** The model-name check of `main`: the name is kept only when it is listed. */
  function SelectModel(name: string): (r: Option<string>)
    ensures r.Some? ==> r.value == name && name in AvailableModels
    ensures r.None? ==> name !in AvailableModels
  {
    if name in AvailableModels then Some(name) else None
  }

  /** No character of `s` is an ASCII capital letter. */
  predicate NoCapitals(s: string) {
    forall i :: 0 <= i < |s| ==> !('A' <= s[i] <= 'Z')
  }

  /**
   * The model check is case-sensitive: every listed name is lower case, so
   * a name with a capital letter is always rejected.
   */
  lemma SelectModelRejectsCapitals(name: string)
    ensures !NoCapitals(name) ==> SelectModel(name) == None
  {
    ListedNamesLowerCase(0, 7);
    ListedNamesLowerCase(7, 14);
  }

  /** The listed names from index `lo` up to `hi` have no capitals. */
  lemma ListedNamesLowerCase(lo: int, hi: int)
    requires 0 <= lo <= hi <= |AvailableModels| && hi - lo <= 7
    ensures forall k :: lo <= k < hi ==> NoCapitals(AvailableModels[k])
  {
  }

  /** The default model and the one the voice mode uses are accepted; others are not. */
  lemma ModelChoices()
    ensures SelectModel("medium") == Some("medium")
    ensures SelectModel("tiny") == Some("tiny")
    ensures SelectModel("large-v4") == None
    ensures SelectModel("Medium") == None
  {
    assert AvailableModels[7] == "medium";
    assert AvailableModels[1] == "tiny";
  }

  /**
   * `_audio_callback`: a frame is queued only while recording, and the
   * stream is always told to continue.
   */
  function AudioCallback(r: Recorder, frame: Frame): (out: (Recorder, Signal))
    ensures out.1 == Continue
    ensures out.0.isRecording == r.isRecording && out.0.isTranscribing == r.isTranscribing
    ensures out.0.buffer == r.buffer && out.0.deviceIndex == r.deviceIndex
    ensures r.isRecording ==> out.0.queue == r.queue + [frame]
    ensures !r.isRecording ==> out.0 == r
  {
    if r.isRecording then (r.(queue := r.queue + [frame]), Continue) else (r, Continue)
  }

  /** The callback invoked once per frame, in delivery order. */
  function Deliver(r: Recorder, frames: seq<Frame>): (s: Recorder)
    ensures s.isRecording == r.isRecording && s.isTranscribing == r.isTranscribing
    ensures s.buffer == r.buffer && s.deviceIndex == r.deviceIndex
    decreases |frames|
  {
    if frames == [] then r else Deliver(AudioCallback(r, frames[0]).0, frames[1..])
  }

  /**
   * The queue is first-in first-out: frames delivered while recording end up
   * behind the ones already queued, in delivery order, none lost or doubled;
   * frames delivered while not recording leave no trace.
   */
  lemma {:induction false} DeliverIsFifo(r: Recorder, frames: seq<Frame>)
    ensures Deliver(r, frames) == if r.isRecording then r.(queue := r.queue + frames) else r
    decreases |frames|
  {
    if frames != [] {
      var r' := AudioCallback(r, frames[0]).0;
      DeliverIsFifo(r', frames[1..]);
      if r.isRecording {
        assert r.queue + [frames[0]] + frames[1..] == r.queue + frames;
      }
    }
  }

  /**
   * The frames `_transcription_worker` takes from the queue during one
   * window: the `arrivals` oldest ones, or all of them if fewer are queued.
   */
  function PullWindow(queue: seq<Frame>, arrivals: nat): (w: (seq<Frame>, seq<Frame>))
    ensures w.0 + w.1 == queue
    ensures |w.0| == if arrivals <= |queue| then arrivals else |queue|
  {
    var n := if arrivals <= |queue| then arrivals else |queue|;
    (queue[..n], queue[n..])
  }

  /** `audio_chunk.extend(data)` over the frames of a window, in arrival order. */
  function Flatten(frames: seq<Frame>): (samples: seq<int>)
    ensures forall i :: 0 <= i < |frames| ==> |frames[i]| <= |samples|
    decreases |frames|
  {
    if frames == [] then [] else Flatten(frames[..|frames| - 1]) + frames[|frames| - 1]
  }

  lemma {:induction false} FlattenAppend(a: seq<Frame>, b: seq<Frame>)
    ensures Flatten(a + b) == Flatten(a) + Flatten(b)
    decreases |b|
  {
    if b != [] {
      var ab := a + b;
      assert ab[..|ab| - 1] == a + b[..|b| - 1];
      FlattenAppend(a, b[..|b| - 1]);
    } else {
      assert a + b == a;
    }
  }

  /** A window contributes no samples exactly when every frame in it is empty. */
  lemma {:induction false} FlattenEmpty(frames: seq<Frame>)
    ensures Flatten(frames) == [] <==> forall i :: 0 <= i < |frames| ==> frames[i] == []
    decreases |frames|
  {
    if frames != [] {
      var init := frames[..|frames| - 1];
      FlattenEmpty(init);
      assert forall i :: 0 <= i < |init| ==> init[i] == frames[i];
    }
  }

  /** Python's `s[-k:]`, including its cases `k == 0` (all of `s`) and `k < 0`. */
  function PyTail(s: seq<int>, k: int): (r: seq<int>)
    ensures |r| <= |s| && r == s[|s| - |r|..]
    ensures 0 < k <= |s| ==> |r| == k
    ensures k == 0 || k > |s| ==> r == s
    ensures k < 0 ==> |r| == if -k <= |s| then |s| + k else 0
  {
    var start := -k;
    if start < 0 then (if |s| + start < 0 then s else s[|s| + start..])
    else if start <= |s| then s[start..] else []
  }

  /** A chunk that was assembled, and the overlap buffer it leaves behind. */
  datatype Assembly = Assembly(chunk: seq<int>, buffer: seq<int>)

  /**
   * The body of one worker iteration after the window has been pulled:
   * no chunk from a window without samples; otherwise the chunk is the old
   * buffer followed by the new samples, and the buffer is replaced by the
   * chunk's `overlap_size` tail only when the chunk is longer than that.
   */
  function Assemble(buffer: seq<int>, window: seq<Frame>, overlapSize: int): (a: Option<Assembly>)
    ensures a.None? <==> Flatten(window) == []
    ensures a.Some? ==> a.value.chunk == buffer + Flatten(window)
    ensures a.Some? && |a.value.chunk| <= overlapSize ==> a.value.buffer == buffer
    ensures a.Some? && 0 < overlapSize < |a.value.chunk| ==>
      a.value.buffer == a.value.chunk[|a.value.chunk| - overlapSize..]
    ensures a.Some? && overlapSize == 0 ==> a.value.buffer == a.value.chunk
    ensures a.Some? && overlapSize < 0 ==>
      var c := a.value.chunk;
      a.value.buffer == if -overlapSize <= |c| then c[-overlapSize..] else []
  {
    var samples := Flatten(window);
    if samples == [] then None
    else
      var chunk := if |buffer| > 0 then buffer + samples else samples;
      assert chunk == buffer + samples;
      Some(Assembly(chunk, if |chunk| > overlapSize then PyTail(chunk, overlapSize) else buffer))
  }

  function Abs(x: int): nat {
    if x < 0 then -x else x
  }

  /** The sum of absolute sample values. */
  function SumAbs(c: seq<int>): (sum: nat)
    ensures sum == 0 <==> forall i :: 0 <= i < |c| ==> c[i] == 0
    decreases |c|
  {
    if c == [] then 0 else Abs(c[0]) + SumAbs(c[1..])
  }

  /** `np.abs(audio_data).mean()` over the float samples `x / 32768.0`. */
  function MeanAbsAmplitude(c: seq<int>): (mean: real)
    requires |c| > 0
    ensures mean >= 0.0
    ensures mean == 0.0 <==> forall i :: 0 <= i < |c| ==> c[i] == 0
  {
    (SumAbs(c) as real / PcmScale) / (|c| as real)
  }

  /** The silence test in integer terms: mean below 0.001 iff `1000 * sum < 32768 * n`. */
  lemma QuietIntegerForm(c: seq<int>)
    requires |c| > 0
    ensures MeanAbsAmplitude(c) < SilenceThreshold <==> SumAbs(c) * 1000 < PcmRange * |c|
  {
    MeanBelowThreshold(SumAbs(c), |c|);
  }

  /** The silence comparison on a sum and a count of samples. */
  lemma MeanBelowThreshold(sum: nat, n: nat)
    requires n > 0
    ensures (sum as real / PcmScale) / (n as real) < SilenceThreshold <==> sum * 1000 < PcmRange * n
  {
    var s := sum as real;
    var bound := SilenceThreshold * (n as real);
    DivBelow(s / PcmScale, n as real, SilenceThreshold);
    DivBelow(s, PcmScale, bound);
    assert bound * PcmScale == (PcmRange * n) as real / 1000.0;
  }

  lemma DivBelow(s: real, d: real, c: real)
    requires d > 0.0
    ensures s / d < c <==> s < c * d
  {
    var q := s / d;
    assert q * d == s;
    if q < c {
      assert (c - q) * d > 0.0;
    } else {
      assert (q - c) * d >= 0.0;
    }
  }

  /** What became of one chunk handed to `_transcribe_chunk`. */
  datatype ChunkFate =
    | TooShort       // under half a second of samples: Whisper is not called
    | TooQuiet       // mean amplitude under the threshold: Whisper is not called
    | Failed         // Whisper raised; the error is printed and swallowed
    | Ignored        // the stripped text has at most one character
    | Emitted(text: string)

  /**
   * `_transcribe_chunk`: the length gate, then the silence gate, then
   * Whisper; the stripped text is printed only when it is longer than one
   * character.
   */
  function TranscribeChunk(chunk: seq<int>, transcribe: seq<int> -> Transcription): (f: ChunkFate)
    ensures f == TooShort <==> |chunk| < MinChunkSamples
    ensures f == TooQuiet <==> |chunk| >= MinChunkSamples && SumAbs(chunk) * 1000 < PcmRange * |chunk|
    ensures f.Emitted? <==>
      && |chunk| >= MinChunkSamples
      && SumAbs(chunk) * 1000 >= PcmRange * |chunk|
      && transcribe(chunk).Transcript?
      && |Text.Strip(transcribe(chunk).text)| > 1
    ensures f.Emitted? ==> f.text == Text.Strip(transcribe(chunk).text)
    ensures f == Failed <==> |chunk| >= MinChunkSamples && SumAbs(chunk) * 1000 >= PcmRange * |chunk| && transcribe(chunk) == Raised
  {
    if |chunk| < MinChunkSamples then TooShort
    else
      QuietIntegerForm(chunk);
      if MeanAbsAmplitude(chunk) < SilenceThreshold then TooQuiet
      else
        match transcribe(chunk)
        case Raised => Failed
        case Transcript(raw) =>
          var text := Text.Strip(raw);
          if text != [] && |text| > 1 then Emitted(text) else Ignored
  }

  /** One pass of `_transcription_worker`'s outer loop. */
  datatype Iteration = Iteration(recorder: Recorder, chunk: Option<seq<int>>, fate: Option<ChunkFate>)

  /**
   * One iteration of the worker, run only while `is_transcribing` holds:
   * `arrivals` frames are taken from the queue, assembled with the overlap
   * buffer, and the chunk, if any, goes through the gated handler.
   */
  function WorkerIteration(r: Recorder, overlapSize: int, arrivals: nat, transcribe: seq<int> -> Transcription): (it: Iteration)
    ensures !r.isTranscribing ==> it == Iteration(r, None, None)
    ensures it.recorder.isRecording == r.isRecording && it.recorder.isTranscribing == r.isTranscribing
    ensures it.recorder.deviceIndex == r.deviceIndex
    ensures |it.recorder.queue| <= |r.queue| && it.recorder.queue == r.queue[|r.queue| - |it.recorder.queue|..]
    ensures it.chunk.None? ==> it.recorder.buffer == r.buffer && it.fate.None?
    ensures it.chunk.Some? ==>
      && r.buffer < it.chunk.value
      && it.chunk.value == r.buffer + Flatten(r.queue[..|r.queue| - |it.recorder.queue|])
      && it.fate == Some(TranscribeChunk(it.chunk.value, transcribe))
    ensures r.isTranscribing ==>
      var window := r.queue[..|r.queue| - |it.recorder.queue|];
      && window == PullWindow(r.queue, arrivals).0
      && Assemble(r.buffer, window, overlapSize) == if it.chunk.Some? then Some(Assembly(it.chunk.value, it.recorder.buffer)) else None
  {
    if !r.isTranscribing then Iteration(r, None, None)
    else
      var (window, rest) := PullWindow(r.queue, arrivals);
      assert window == r.queue[..|r.queue| - |rest|];
      match Assemble(r.buffer, window, overlapSize)
      case None => Iteration(r.(queue := rest), None, None)
      case Some(a) =>
        Iteration(r.(queue := rest, buffer := a.buffer), Some(a.chunk), Some(TranscribeChunk(a.chunk, transcribe)))
  }

  /**
   * Whether `start_recording` got the microphone stream open, and on which
   * input device (`None` is PyAudio's default device).
   */
  datatype StartOutcome = Started(recorder: Recorder, device: Option<int>) | DeviceUnavailable(recorder: Recorder)

  /**
   * `start_recording`: `is_recording` is raised before the stream is opened;
   * when opening fails the error propagates with the flag left raised. On
   * success the worker thread starts and raises `is_transcribing`. The
   * stream is opened without an `input_device_index`, so the default device
   * is used whatever `device_index` holds.
   */
  function StartRecording(r: Recorder, deviceOpens: bool): (o: StartOutcome)
    ensures o.recorder.isRecording
    ensures o.recorder.queue == r.queue && o.recorder.buffer == r.buffer && o.recorder.deviceIndex == r.deviceIndex
    ensures o.Started? <==> deviceOpens
    ensures o.Started? ==> o.recorder.isTranscribing && o.device == None
    ensures o.DeviceUnavailable? ==> o.recorder.isTranscribing == r.isTranscribing
  {
    var recording := r.(isRecording := true);
    if deviceOpens then Started(recording.(isTranscribing := true), None) else DeviceUnavailable(recording)
  }

  /**
   * `device_index` is never read: two transcribers that differ only in it
   * start the same way and open the same device.
   */
  lemma DeviceIndexNeverRead(r: Recorder, deviceIndex: Option<int>, deviceOpens: bool)
    ensures var o := StartRecording(r, deviceOpens);
      var o' := StartRecording(r.(deviceIndex := deviceIndex), deviceOpens);
      && o'.Started? == o.Started?
      && o'.recorder == o.recorder.(deviceIndex := deviceIndex)
      && (o.Started? ==> o'.device == o.device)
  {
  }

  /**
   * A started transcriber is live, the converse of `StoppedIsInert`: every
   * delivered frame is queued in order, and a worker iteration yields a
   * chunk exactly when the frames it pulls carry samples.
   */
  lemma StartedIsLive(r: Recorder, frames: seq<Frame>, overlapSize: int, arrivals: nat, transcribe: seq<int> -> Transcription)
    ensures var live := StartRecording(r, true).recorder;
      && Deliver(live, frames) == live.(queue := r.queue + frames)
      && (WorkerIteration(live, overlapSize, arrivals, transcribe).chunk.Some? <==> Flatten(PullWindow(r.queue, arrivals).0) != [])
  {
    DeliverIsFifo(StartRecording(r, true).recorder, frames);
  }

  /**
   * The opening as evidently intended: identical to `start_recording` except
   * that the stream is opened on the device `device_index` names, or on the
   * default device while it is unset.
   */
  function IntendedStartRecording(r: Recorder, deviceOpens: bool): (o: StartOutcome)
    ensures o.recorder == StartRecording(r, deviceOpens).recorder
    ensures o.Started? <==> StartRecording(r, deviceOpens).Started?
    ensures o.Started? ==> o.device == r.deviceIndex
  {
    match StartRecording(r, deviceOpens)
    case Started(recorder, _) => Started(recorder, r.deviceIndex)
    case DeviceUnavailable(recorder) => DeviceUnavailable(recorder)
  }

  /** `stop_recording`: both flags go down; queue and buffer are left as they are. */
  function StopRecording(r: Recorder): (s: Recorder)
    ensures !s.isRecording && !s.isTranscribing
    ensures s.queue == r.queue && s.buffer == r.buffer && s.deviceIndex == r.deviceIndex
  {
    r.(isRecording := false, isTranscribing := false)
  }

  /**
   * After `stop_recording` nothing moves: the callback queues no more frames
   * and the worker takes no more iterations.
   */
  lemma {:induction false} StoppedIsInert(r: Recorder, frames: seq<Frame>, overlapSize: int, arrivals: nat, transcribe: seq<int> -> Transcription)
    ensures Deliver(StopRecording(r), frames) == StopRecording(r)
    ensures WorkerIteration(StopRecording(r), overlapSize, arrivals, transcribe) == Iteration(StopRecording(r), None, None)
  {
    DeliverIsFifo(StopRecording(r), frames);
  }

  /** The chunks a sequence of windows produces, and the final overlap buffer. */
  datatype Trace = Trace(chunks: seq<seq<int>>, buffer: seq<int>)

  /** Successive worker iterations, one window each, starting from `buffer`. */
  function Run(buffer: seq<int>, windows: seq<seq<Frame>>, overlapSize: int): (t: Trace)
    ensures |t.chunks| <= |windows|
    decreases |windows|
  {
    if windows == [] then Trace([], buffer)
    else
      match Assemble(buffer, windows[0], overlapSize)
      case None => Run(buffer, windows[1..], overlapSize)
      case Some(a) =>
        var rest := Run(a.buffer, windows[1..], overlapSize);
        Trace([a.chunk] + rest.chunks, rest.buffer)
  }

  /**
   * With a positive overlap, one assembly step keeps the buffer empty or
   * `overlap_size` long; a chunk longer than the overlap hands on its tail;
   * from a full buffer the chunk is longer than the overlap and starts with it.
   */
  lemma AssembleShape(buffer: seq<int>, window: seq<Frame>, overlapSize: int)
    requires overlapSize > 0 && (|buffer| == 0 || |buffer| == overlapSize)
    ensures var a := Assemble(buffer, window, overlapSize);
      a.Some? ==>
        && (|a.value.buffer| == 0 || |a.value.buffer| == overlapSize)
        && (|a.value.chunk| > overlapSize ==> a.value.buffer == a.value.chunk[|a.value.chunk| - overlapSize..])
        && (|buffer| == overlapSize ==> |a.value.chunk| > overlapSize && a.value.chunk[..overlapSize] == buffer)
  {
    var a := Assemble(buffer, window, overlapSize);
    if a.Some? && |buffer| == overlapSize {
      assert a.value.chunk[..overlapSize] == buffer;
    }
  }

  /**
   * One worker iteration of a run with a positive overlap, named: whether a
   * chunk was produced, the chunk, and the buffer the next iteration starts
   * from.
   */
  lemma RunStep(buffer: seq<int>, windows: seq<seq<Frame>>, overlapSize: int) returns (produced: bool, chunk: seq<int>, next: seq<int>)
    requires overlapSize > 0 && (|buffer| == 0 || |buffer| == overlapSize) && windows != []
    ensures |next| == 0 || |next| == overlapSize
    ensures produced ==>
      var rest := Run(next, windows[1..], overlapSize);
      Run(buffer, windows, overlapSize) == Trace([chunk] + rest.chunks, rest.buffer)
    ensures !produced ==> next == buffer && Run(buffer, windows, overlapSize) == Run(next, windows[1..], overlapSize)
    ensures produced && |chunk| > overlapSize ==> next == chunk[|chunk| - overlapSize..]
    ensures produced && |buffer| == overlapSize ==> |chunk| > overlapSize && chunk[..overlapSize] == buffer
  {
    var step := Assemble(buffer, windows[0], overlapSize);
    AssembleShape(buffer, windows[0], overlapSize);
    RunUnfold(buffer, windows, overlapSize);
    if step.None? {
      produced, chunk, next := false, [], buffer;
    } else {
      produced, chunk, next := true, step.value.chunk, step.value.buffer;
    }
  }

  /** `Run` on a non-empty sequence of windows, one iteration peeled off. */
  lemma RunUnfold(buffer: seq<int>, windows: seq<seq<Frame>>, overlapSize: int)
    requires windows != []
    ensures var step := Assemble(buffer, windows[0], overlapSize);
      Run(buffer, windows, overlapSize) ==
        if step.None? then Run(buffer, windows[1..], overlapSize)
        else
          var rest := Run(step.value.buffer, windows[1..], overlapSize);
          Trace([step.value.chunk] + rest.chunks, rest.buffer)
  {
  }

  /**
   * With a positive overlap the buffer is only ever empty or exactly
   * `overlap_size` long; once it is full every chunk is longer than the
   * overlap and begins with it.
   */
  lemma {:induction false} BufferShape(buffer: seq<int>, windows: seq<seq<Frame>>, overlapSize: int)
    requires overlapSize > 0 && (|buffer| == 0 || |buffer| == overlapSize)
    ensures var t := Run(buffer, windows, overlapSize);
      && (|t.buffer| == 0 || |t.buffer| == overlapSize)
      && (|buffer| == overlapSize ==> forall i :: 0 <= i < |t.chunks| ==> |t.chunks[i]| > overlapSize)
    decreases |windows|
  {
    if windows != [] {
      var produced, chunk, next := RunStep(buffer, windows, overlapSize);
      BufferShape(next, windows[1..], overlapSize);
      if produced && |buffer| == overlapSize {
        var cs := Run(buffer, windows, overlapSize).chunks;
        var rest := Run(next, windows[1..], overlapSize).chunks;
        forall i | 0 <= i < |cs| ensures |cs[i]| > overlapSize {
          if i > 0 { assert cs[i] == rest[i - 1]; }
        }
      }
    }
  }

  /**
   * Whenever a chunk is longer than `overlapSize`, the next one is longer
   * too and its first `overlapSize` samples are the first one's last
   * `overlapSize` samples.
   */
  predicate Chained(cs: seq<seq<int>>, overlapSize: int)
    requires overlapSize > 0
  {
    forall i :: 1 <= i < |cs| && |cs[i - 1]| > overlapSize ==>
      && |cs[i]| > overlapSize
      && cs[i][..overlapSize] == cs[i - 1][|cs[i - 1]| - overlapSize..]
  }

  lemma ChainedCons(c: seq<int>, rest: seq<seq<int>>, overlapSize: int)
    requires overlapSize > 0 && Chained(rest, overlapSize)
    requires |c| > overlapSize && rest != [] ==>
      |rest[0]| > overlapSize && rest[0][..overlapSize] == c[|c| - overlapSize..]
    ensures Chained([c] + rest, overlapSize)
  {
    var cs := [c] + rest;
    forall i | 1 <= i < |cs| && |cs[i - 1]| > overlapSize
      ensures |cs[i]| > overlapSize && cs[i][..overlapSize] == cs[i - 1][|cs[i - 1]| - overlapSize..]
    {
      assert cs[i] == rest[i - 1];
      if i > 1 {
        assert cs[i - 1] == rest[i - 2];
      }
    }
  }

  /** From a full buffer, the first chunk is longer than the overlap and starts with the buffer. */
  lemma {:induction false} FirstChunkAfterFullBuffer(buffer: seq<int>, windows: seq<seq<Frame>>, overlapSize: int)
    requires overlapSize > 0 && |buffer| == overlapSize
    ensures var cs := Run(buffer, windows, overlapSize).chunks;
      cs != [] ==> |cs[0]| > overlapSize && cs[0][..overlapSize] == buffer
    decreases |windows|
  {
    if windows != [] {
      var produced, chunk, next := RunStep(buffer, windows, overlapSize);
      if !produced {
        FirstChunkAfterFullBuffer(next, windows[1..], overlapSize);
      }
    }
  }

  /** Consecutive chunks of a run overlap by `overlap_size` samples. */
  lemma {:induction false} ConsecutiveChunksOverlap(buffer: seq<int>, windows: seq<seq<Frame>>, overlapSize: int)
    requires overlapSize > 0 && (|buffer| == 0 || |buffer| == overlapSize)
    ensures Chained(Run(buffer, windows, overlapSize).chunks, overlapSize)
    decreases |windows|
  {
    if windows != [] {
      var produced, chunk, next := RunStep(buffer, windows, overlapSize);
      ConsecutiveChunksOverlap(next, windows[1..], overlapSize);
      if produced {
        if |chunk| > overlapSize {
          FirstChunkAfterFullBuffer(next, windows[1..], overlapSize);
        }
        ChainedCons(chunk, Run(next, windows[1..], overlapSize).chunks, overlapSize);
      }
    }
  }

  /**
   * With the default sizes the length gate can only reject chunks produced
   * before the buffer first fills: afterwards every chunk carries at least
   * `overlap_size` >= `MinChunkSamples` samples of overlap.
   */
  lemma LengthGateOnlyBeforeOverlap(buffer: seq<int>, windows: seq<seq<Frame>>, overlapSize: int, transcribe: seq<int> -> Transcription)
    requires overlapSize >= MinChunkSamples && |buffer| == overlapSize
    ensures var cs := Run(buffer, windows, overlapSize).chunks;
      forall i :: 0 <= i < |cs| ==> TranscribeChunk(cs[i], transcribe) != TooShort
  {
    BufferShape(buffer, windows, overlapSize);
  }

  /**
   * One worker iteration is one step of `Run`: on the window it pulls, the
   * run yields the iteration's chunk, if any, and ends on its buffer.
   */
  lemma WorkerIterationIsRunStep(r: Recorder, overlapSize: int, arrivals: nat, transcribe: seq<int> -> Transcription)
    ensures var it := WorkerIteration(r, overlapSize, arrivals, transcribe);
      r.isTranscribing ==>
        Run(r.buffer, [PullWindow(r.queue, arrivals).0], overlapSize)
          == Trace(if it.chunk.Some? then [it.chunk.value] else [], it.recorder.buffer)
  {
    var w := PullWindow(r.queue, arrivals).0;
    RunUnfold(r.buffer, [w], overlapSize);
    assert [w][1..] == [];
  }

  /** With a positive overlap, a worker iteration keeps the buffer empty or exactly `overlap_size` long. */
  lemma WorkerKeepsBufferShape(r: Recorder, overlapSize: int, arrivals: nat, transcribe: seq<int> -> Transcription)
    requires overlapSize > 0 && (|r.buffer| == 0 || |r.buffer| == overlapSize)
    ensures var b := WorkerIteration(r, overlapSize, arrivals, transcribe).recorder.buffer;
      |b| == 0 || |b| == overlapSize
  {
    AssembleShape(r.buffer, PullWindow(r.queue, arrivals).0, overlapSize);
  }

  /** Every sample of a sequence of windows, in arrival order. */
  function AllSamples(windows: seq<seq<Frame>>): seq<int>
    decreases |windows|
  {
    if windows == [] then [] else Flatten(windows[0]) + AllSamples(windows[1..])
  }

  /** Each chunk strictly extends `start`, and each strictly extends the one before. */
  predicate GrowingFrom(start: seq<int>, cs: seq<seq<int>>) {
    && (forall i :: 0 <= i < |cs| ==> start < cs[i])
    && (forall i :: 1 <= i < |cs| ==> cs[i - 1] < cs[i])
  }

  lemma GrowingCons(start: seq<int>, c: seq<int>, rest: seq<seq<int>>)
    requires start < c && GrowingFrom(c, rest)
    ensures GrowingFrom(start, [c] + rest)
  {
    var cs := [c] + rest;
    forall i | 1 <= i < |cs| ensures start < cs[i] && cs[i - 1] < cs[i] {
      assert cs[i] == rest[i - 1];
      if i > 1 {
        assert cs[i - 1] == rest[i - 2];
      }
    }
  }

  /**
   * With `overlap_size == 0`, `audio_chunk[-0:]` is the whole chunk: the
   * buffer becomes the entire history of samples and each chunk strictly
   * extends the one before, without bound.
   */
  lemma {:induction false} ZeroOverlapKeepsHistory(buffer: seq<int>, windows: seq<seq<Frame>>)
    ensures Run(buffer, windows, 0).buffer == buffer + AllSamples(windows)
    decreases |windows|
  {
    if windows != [] {
      var samples := Flatten(windows[0]);
      ZeroOverlapStep(buffer, windows);
      ZeroOverlapKeepsHistory(buffer + samples, windows[1..]);
      assert AllSamples(windows) == samples + AllSamples(windows[1..]);
      assert (buffer + samples) + AllSamples(windows[1..]) == buffer + (samples + AllSamples(windows[1..]));
    }
  }

  /** One window under a zero overlap: its samples are appended to the buffer. */
  lemma ZeroOverlapStep(buffer: seq<int>, windows: seq<seq<Frame>>)
    requires windows != []
    ensures Run(buffer, windows, 0).buffer == Run(buffer + Flatten(windows[0]), windows[1..], 0).buffer
  {
    if Flatten(windows[0]) == [] {
      assert buffer + Flatten(windows[0]) == buffer;
    }
  }

  lemma {:induction false} ZeroOverlapChunksGrow(buffer: seq<int>, windows: seq<seq<Frame>>)
    ensures GrowingFrom(buffer, Run(buffer, windows, 0).chunks)
    decreases |windows|
  {
    if windows != [] {
      var step := Assemble(buffer, windows[0], 0);
      if step.None? {
        ZeroOverlapChunksGrow(buffer, windows[1..]);
        assert Run(buffer, windows, 0) == Run(buffer, windows[1..], 0);
      } else {
        var a := step.value;
        assert buffer < a.chunk && a.buffer == a.chunk;
        var rest := Run(a.buffer, windows[1..], 0);
        assert Run(buffer, windows, 0).chunks == [a.chunk] + rest.chunks;
        ZeroOverlapChunksGrow(a.buffer, windows[1..]);
        GrowingCons(buffer, a.chunk, rest.chunks);
      }
    }
  }

  /**
   * The overlap step as evidently intended: identical to main.py's step for a
   * positive overlap, and no carry-over at all when the overlap is zero or
   * negative.
   */
  function CorrectedAssemble(buffer: seq<int>, window: seq<Frame>, overlapSize: int): (a: Option<Assembly>)
    ensures overlapSize > 0 ==> a == Assemble(buffer, window, overlapSize)
    ensures a.None? <==> Flatten(window) == []
    ensures a.Some? ==> a.value.chunk == buffer + Flatten(window)
    ensures overlapSize <= 0 && a.Some? ==> a.value.buffer == []
  {
    match Assemble(buffer, window, overlapSize)
    case None => None
    case Some(x) => Some(if overlapSize <= 0 then x.(buffer := []) else x)
  }

  /** `Run` with the corrected overlap step. */
  function CorrectedRun(buffer: seq<int>, windows: seq<seq<Frame>>, overlapSize: int): (t: Trace)
    ensures |t.chunks| == |WindowSamples(windows)|
    decreases |windows|
  {
    if windows == [] then Trace([], buffer)
    else
      match CorrectedAssemble(buffer, windows[0], overlapSize)
      case None => CorrectedRun(buffer, windows[1..], overlapSize)
      case Some(a) =>
        var rest := CorrectedRun(a.buffer, windows[1..], overlapSize);
        Trace([a.chunk] + rest.chunks, rest.buffer)
  }

  /** The worker loop yields exactly one chunk per window that carries samples. */
  lemma {:induction false} RunChunkCount(buffer: seq<int>, windows: seq<seq<Frame>>, overlapSize: int)
    ensures |Run(buffer, windows, overlapSize).chunks| == |WindowSamples(windows)|
    decreases |windows|
  {
    if windows != [] {
      RunUnfold(buffer, windows, overlapSize);
      match Assemble(buffer, windows[0], overlapSize)
      case None =>
        RunChunkCount(buffer, windows[1..], overlapSize);
      case Some(a) =>
        RunChunkCount(a.buffer, windows[1..], overlapSize);
    }
  }

  /** For every positive overlap the corrected run is the run of main.py's worker loop. */
  lemma {:induction false} CorrectedRunAgrees(buffer: seq<int>, windows: seq<seq<Frame>>, overlapSize: int)
    requires overlapSize > 0
    ensures CorrectedRun(buffer, windows, overlapSize) == Run(buffer, windows, overlapSize)
    decreases |windows|
  {
    if windows != [] {
      RunUnfold(buffer, windows, overlapSize);
      match Assemble(buffer, windows[0], overlapSize)
      case None =>
        CorrectedRunAgrees(buffer, windows[1..], overlapSize);
      case Some(a) =>
        CorrectedRunAgrees(a.buffer, windows[1..], overlapSize);
    }
  }

  /** The samples of each window that has any, one sequence per window. */
  function WindowSamples(windows: seq<seq<Frame>>): (ws: seq<seq<int>>)
    ensures |ws| <= |windows|
    decreases |windows|
  {
    if windows == [] then []
    else (if Flatten(windows[0]) == [] then [] else [Flatten(windows[0])]) + WindowSamples(windows[1..])
  }

  /**
   * Under the corrected step a zero (or negative) overlap means what it
   * says: from an empty buffer every chunk is exactly its own window's
   * samples, and the buffer stays empty.
   */
  lemma {:induction false} CorrectedZeroOverlapIsMemoryless(windows: seq<seq<Frame>>, overlapSize: int)
    requires overlapSize <= 0
    ensures CorrectedRun([], windows, overlapSize) == Trace(WindowSamples(windows), [])
    decreases |windows|
  {
    if windows != [] {
      CorrectedZeroOverlapIsMemoryless(windows[1..], overlapSize);
      var samples := Flatten(windows[0]);
      if samples != [] {
        assert [] + samples == samples;
      }
    }
  }
}
