// VoiceRecorder (VoiceRecorder.kt): the permission guard, the recording
// loop with its per-read peak amplitude, and the mono WAV file written at
// the end. The microphone, the clock and the file system are inputs: the
// reads the loop performs before it is stopped, the elapsed time, and
// whether writing the file throws.
module VoiceRecorder {
  import opened Common
  import opened AudioMixer

  const RecorderSampleRate: int := 44100

  datatype RecordingState =
    | Idle
    | Recording
    | AmplitudeUpdate(amplitude: int)
    | Completed(filePath: string, durationMs: int)
    | Error(message: string)

  /** The largest |sample| among the first n, starting from 0. */
  function Peak(buffer: seq<int>, n: nat): int
    requires n <= |buffer|
  {
    if n == 0 then 0 else Max(Peak(buffer, n - 1), Abs(buffer[n - 1]))
  }

  /**
   * The peak of a non-empty read of 16-bit samples is one of their
   * magnitudes, bounds all of them, and lies in [0, 32768].
   */
  lemma {:induction false} PeakBounds(buffer: seq<int>, n: nat)
    requires n <= |buffer| && forall i :: 0 <= i < n ==> IsShort(buffer[i])
    ensures 0 <= Peak(buffer, n) <= 32768
    ensures forall i :: 0 <= i < n ==> Abs(buffer[i]) <= Peak(buffer, n)
    ensures n > 0 ==> exists i :: 0 <= i < n && Abs(buffer[i]) == Peak(buffer, n)
  {
    if n > 0 {
      PeakBounds(buffer, n - 1);
    }
  }

  /** The amplitude loop: maxAmplitude over buffer[0 until readResult]. */
  method PeakAmplitude(buffer: array<int>, readResult: int) returns (maxAmplitude: int)
    requires 0 <= readResult <= buffer.Length
    ensures maxAmplitude == Peak(buffer[..], readResult)
  {
    maxAmplitude := 0;
    var i := 0;
    while i < readResult
      invariant 0 <= i <= readResult && maxAmplitude == Peak(buffer[..], i)
    {
      var abs := Abs(buffer[i]);
      if abs > maxAmplitude {
        maxAmplitude := abs;
      }
      i := i + 1;
    }
  }

  /** All the reads, concatenated: the samples list the loop collects. */
  function Collected(chunks: seq<seq<int>>): (s: seq<int>)
  {
    if chunks == [] then [] else Collected(chunks[..|chunks| - 1]) + chunks[|chunks| - 1]
  }

  /** The amplitude updates the loop emits, one per non-empty read. */
  function Updates(chunks: seq<seq<int>>): seq<RecordingState>
  {
    if chunks == [] then []
    else
      var last := chunks[|chunks| - 1];
      Updates(chunks[..|chunks| - 1]) + (if |last| > 0 then [AmplitudeUpdate(Peak(last, |last|))] else [])
  }

  /**
   * startRecording's emitted states. chunks are the buffers the loop reads
   * before it is stopped (an empty one is a read returning 0 or an error
   * code); writeFailure is Some(message) when writing the file throws,
   * with None for an exception without a message.
   */
  function RecordingFlow(hasPermission: bool, initialized: bool, chunks: seq<seq<int>>, outputPath: string,
                         durationMs: int, writeFailure: Option<Option<string>>): seq<RecordingState>
  {
    if !hasPermission then [Error("Recording permission not granted")]
    else if !initialized then [Error("Failed to initialize AudioRecord")]
    else
      [Recording] + Updates(chunks)
      + match writeFailure
        case None => [Completed(outputPath, durationMs)]
        case Some(m) => [Error(match m case Some(text) => text case None => "Recording failed")]
  }

  /** writeWavFile: a mono, 44100 Hz, 16-bit file of the collected samples. */
  method WriteWavFile(samples: seq<int>) returns (file: seq<int>)
    ensures file == WavFile(samples, RecorderSampleRate, 1)
  {
    var channels := 1;
    var buffer := SampleBuffer(samples);
    file := WavHeader(|samples|, RecorderSampleRate, channels) + buffer[..];
  }

  /**
   * startRecording: the permission guard, the initialisation check, the
   * read loop (collecting samples and emitting each read's peak), then the
   * file and Completed, or an Error when writing throws.
   */
  method StartRecording(hasPermission: bool, initialized: bool, chunks: seq<seq<int>>, outputPath: string,
                        durationMs: int, writeFailure: Option<Option<string>>)
    returns (states: seq<RecordingState>, file: Option<seq<int>>)
    ensures states == RecordingFlow(hasPermission, initialized, chunks, outputPath, durationMs, writeFailure)
    ensures file.Some? <==> hasPermission && initialized && writeFailure.None?
    ensures file.Some? ==> file.value == WavFile(Collected(chunks), RecorderSampleRate, 1)
  {
    if !hasPermission {
      return [Error("Recording permission not granted")], None;
    }
    if !initialized {
      return [Error("Failed to initialize AudioRecord")], None;
    }
    states := [Recording];
    var samples: seq<int> := [];
    var k := 0;
    while k < |chunks|
      invariant 0 <= k <= |chunks|
      invariant samples == Collected(chunks[..k])
      invariant states == [Recording] + Updates(chunks[..k])
    {
      var read := chunks[k];
      var buffer := new int[|read|](i requires 0 <= i < |read| => read[i]);
      assert buffer[..] == read;
      var readResult := |read|;
      assert chunks[..k + 1][..k] == chunks[..k];
      if readResult > 0 {
        samples := samples + buffer[..readResult];
        var maxAmplitude := PeakAmplitude(buffer, readResult);
        states := states + [AmplitudeUpdate(maxAmplitude)];
      }
      k := k + 1;
    }
    assert chunks[..|chunks|] == chunks;
    match writeFailure {
      case None =>
        var bytes := WriteWavFile(samples);
        file := Some(bytes);
        states := states + [Completed(outputPath, durationMs)];
      case Some(m) =>
        file := None;
        states := states + [Error(match m case Some(text) => text case None => "Recording failed")];
    }
  }

  /** Without permission the flow is exactly one Error. */
  lemma NoPermissionSingleError(initialized: bool, chunks: seq<seq<int>>, outputPath: string,
                                durationMs: int, writeFailure: Option<Option<string>>)
    ensures var flow := RecordingFlow(false, initialized, chunks, outputPath, durationMs, writeFailure);
      |flow| == 1 && flow[0].Error?
  {
  }

  /** One update per non-empty read, each the read's peak, so each in [0, 32768] for 16-bit reads. */
  lemma {:induction false} UpdatesArePeaks(chunks: seq<seq<int>>)
    requires forall r, i :: r in chunks && 0 <= i < |r| ==> IsShort(r[i])
    ensures forall u :: u in Updates(chunks) ==> u.AmplitudeUpdate? && 0 <= u.amplitude <= 32768
    ensures |Updates(chunks)| <= |chunks|
  {
    if chunks != [] {
      var last := chunks[|chunks| - 1];
      var init := chunks[..|chunks| - 1];
      assert forall r :: r in init ==> r in chunks;
      UpdatesArePeaks(init);
      assert last in chunks;
      PeakBounds(last, |last|);
    }
  }

  /** The file holds every collected sample in order, each readable back from its two bytes. */
  lemma RecordedSamples(chunks: seq<seq<int>>, i: int)
    requires 0 <= i < |Collected(chunks)| && IsShort(Collected(chunks)[i])
    ensures ReadShort(WavFile(Collected(chunks), RecorderSampleRate, 1)[44 + 2 * i..46 + 2 * i]) == Collected(chunks)[i]
  {
    WavSamples(Collected(chunks), RecorderSampleRate, 1, i);
  }

  /**
   * The recorder's header: 1 channel, 44100 Hz, byte rate 88200, block
   * align 2, 16 bits, RIFF size 36 + 2n and data size 2n, for a file of
   * 44 + 2n bytes.
   */
  lemma MonoHeader(samples: seq<int>)
    requires |samples| < 0x7000_0000
    ensures |WavFile(samples, RecorderSampleRate, 1)| == 44 + 2 * |samples|
    ensures Field(WavFile(samples, RecorderSampleRate, 1), 22, 2) == 1
    ensures Field(WavFile(samples, RecorderSampleRate, 1), 24, 4) == 44100
    ensures Field(WavFile(samples, RecorderSampleRate, 1), 28, 4) == 88200
    ensures Field(WavFile(samples, RecorderSampleRate, 1), 32, 2) == 2
    ensures Field(WavFile(samples, RecorderSampleRate, 1), 34, 2) == 16
    ensures Field(WavFile(samples, RecorderSampleRate, 1), 4, 4) == 36 + 2 * |samples|
    ensures Field(WavFile(samples, RecorderSampleRate, 1), 40, 4) == 2 * |samples|
  {
    var n := |samples|;
    WavHeaderFields(samples, RecorderSampleRate, 1);
    SmallMod(36 + 2 * n, 0x1_0000_0000);
    SmallMod(2 * n, 0x1_0000_0000);
    SmallMod(ByteRate(RecorderSampleRate, 1), 0x1_0000_0000);
    SmallMod(RecorderSampleRate, 0x1_0000_0000);
  }
}
