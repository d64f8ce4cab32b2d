// VideoExporter.kt: the bitrate chosen for an export, the choice of the
// source's video and audio tracks, and the sequence of ExportState values
// the export flow emits together with what it asks of the muxer.
//
// The platform (MediaExtractor, MediaCodec, MediaMuxer, the file system) is
// an input: a Source value lists the track mime types, the duration, the
// encoder outputs in the order the codec pair delivers them, the audio sample
// sizes, the output path and size, and at most one exception together with
// the step that throws it.
module Export {
  import opened Common

  // ---------------------------------------------------------------------
  // Configuration and bitrate
  // ---------------------------------------------------------------------

  datatype ExportResolution = HD720p | FHD1080p | UHD4K

  datatype Quality = Low | Medium | High

  function Width(r: ExportResolution): int
  {
    match r
    case HD720p => 1280
    case FHD1080p => 1920
    case UHD4K => 3840
  }

  function Height(r: ExportResolution): int
  {
    match r
    case HD720p => 720
    case FHD1080p => 1080
    case UHD4K => 2160
  }

  function BitrateFactor(q: Quality): real
  {
    match q
    case Low => 0.5
    case Medium => 1.0
    case High => 2.0
  }

  function BaseBitrate(r: ExportResolution): int
  {
    match r
    case HD720p => 5_000_000
    case FHD1080p => 10_000_000
    case UHD4K => 35_000_000
  }

  /** Base bitrate times the quality factor, in bits per second at 30 frames per second. */
  function Rate(r: ExportResolution, q: Quality): (rate: real)
    ensures rate > 0.0
  {
    BaseBitrate(r) as real * BitrateFactor(q)
  }

  /** A rate at 30 frames per second scaled to fps frames per second. */
  function AtFrameRate(rate: real, fps: int): (scaled: real)
    ensures rate >= 0.0 && fps >= 0 ==> scaled >= 0.0
  {
    if rate >= 0.0 && fps >= 0 then
      RealMulNonneg(rate, fps as real / 30.0);
      rate * (fps as real / 30.0)
    else
      rate * (fps as real / 30.0)
  }

  /** calculateBitrate: (base × quality factor × fps / 30).toInt(). */
  function CalculateBitrate(r: ExportResolution, q: Quality, fps: int): (bitrate: int)
    ensures -0x8000_0000 <= bitrate < 0x8000_0000
    ensures fps >= 0 ==> bitrate >= 0
  {
    FloatToInt(AtFrameRate(Rate(r, q), fps))
  }

  /** At the default 30 frames per second the bitrate is the base scaled by the quality factor. */
  lemma BitrateAtThirtyFps(r: ExportResolution)
    ensures CalculateBitrate(r, Low, 30) == BaseBitrate(r) / 2
    ensures CalculateBitrate(r, Medium, 30) == BaseBitrate(r)
    ensures CalculateBitrate(r, High, 30) == 2 * BaseBitrate(r)
  {
    assert forall rate :: AtFrameRate(rate, 30) == rate;
  }

  function QualityRank(q: Quality): int
  {
    match q
    case Low => 0
    case Medium => 1
    case High => 2
  }

  /** A higher quality or a higher frame rate never lowers the bitrate. */
  lemma BitrateMonotone(r: ExportResolution, q1: Quality, q2: Quality, fps1: int, fps2: int)
    requires QualityRank(q1) <= QualityRank(q2) && 0 <= fps1 <= fps2
    ensures CalculateBitrate(r, q1, fps1) <= CalculateBitrate(r, q2, fps2)
  {
    var f1, f2 := fps1 as real / 30.0, fps2 as real / 30.0;
    RateMonotone(r, q1, q2);
    ProductMonotone(Rate(r, q1), Rate(r, q2), f1, f2);
    FloatToIntMonotone(AtFrameRate(Rate(r, q1), fps1), AtFrameRate(Rate(r, q2), fps2));
  }

  lemma ProductMonotone(r1: real, r2: real, f1: real, f2: real)
    requires 0.0 <= r1 <= r2 && 0.0 <= f1 <= f2
    ensures r1 * f1 <= r2 * f2
  {
    ScaleMonotone(r1, f1, f2);
    MulRightMonotone(r1, r2, f2);
  }

  lemma RateMonotone(r: ExportResolution, q1: Quality, q2: Quality)
    requires QualityRank(q1) <= QualityRank(q2)
    ensures Rate(r, q1) <= Rate(r, q2)
  {
    MulRightMonotone(BitrateFactor(q1), BitrateFactor(q2), BaseBitrate(r) as real);
    assert BaseBitrate(r) as real * BitrateFactor(q1) == BitrateFactor(q1) * BaseBitrate(r) as real;
    assert BaseBitrate(r) as real * BitrateFactor(q2) == BitrateFactor(q2) * BaseBitrate(r) as real;
  }

  lemma MulRightMonotone(p: real, q: real, a: real)
    requires p <= q && a >= 0.0
    ensures p * a <= q * a
  {
    ScaleMonotone(a, p, q);
  }

  /** The Int conversion saturates: a 4K high-quality export at 1000 fps asks for Int.MAX_VALUE. */
  lemma BitrateSaturates()
    ensures CalculateBitrate(UHD4K, High, 1000) == 0x7fff_ffff
  {
    var x := AtFrameRate(Rate(UHD4K, High), 1000);
    assert x >= 0x8000_0000 as real;
    assert Trunc(x) >= 0x8000_0000;
  }

  // ---------------------------------------------------------------------
  // Track selection
  // ---------------------------------------------------------------------

  const VideoPrefix: string := "video/"
  const AudioPrefix: string := "audio/"

  /** A track whose format carries a mime type that starts with the prefix. */
  predicate IsKind(mime: Option<string>, prefix: string)
  {
    mime.Some? && prefix <= mime.value
  }

  /** The first track of the kind, or -1; defined on the tracks seen so far. */
  function FirstOfKind(tracks: seq<Option<string>>, prefix: string): int
  {
    if tracks == [] then -1
    else
      var f := FirstOfKind(tracks[..|tracks| - 1], prefix);
      if f >= 0 then f
      else if IsKind(tracks[|tracks| - 1], prefix) then |tracks| - 1
      else -1
  }

  /** FirstOfKind is -1 exactly when no track is of the kind, and otherwise the first one that is. */
  lemma {:induction false} FirstOfKindIsFirst(tracks: seq<Option<string>>, prefix: string)
    ensures var f := FirstOfKind(tracks, prefix);
      -1 <= f < |tracks|
      && (f == -1 <==> forall i :: 0 <= i < |tracks| ==> !IsKind(tracks[i], prefix))
      && (f >= 0 ==> IsKind(tracks[f], prefix) && forall i :: 0 <= i < f ==> !IsKind(tracks[i], prefix))
  {
    if tracks != [] {
      var init := tracks[..|tracks| - 1];
      FirstOfKindIsFirst(init, prefix);
      forall i | 0 <= i < |init| ensures tracks[i] == init[i] { }
    }
  }

  /** No mime type starts with both prefixes, so the two tracks found are different tracks. */
  lemma VideoAndAudioDiffer(tracks: seq<Option<string>>)
    requires FirstOfKind(tracks, VideoPrefix) >= 0 && FirstOfKind(tracks, AudioPrefix) >= 0
    ensures FirstOfKind(tracks, VideoPrefix) != FirstOfKind(tracks, AudioPrefix)
  {
    FirstOfKindIsFirst(tracks, VideoPrefix);
    FirstOfKindIsFirst(tracks, AudioPrefix);
    VideoAudioExclusive(tracks[FirstOfKind(tracks, VideoPrefix)]);
  }

  /**
   * The track loop of export: tracks without a mime type are skipped; the
   * first video track and the first audio track are kept.
   */
  method SelectTracks(tracks: seq<Option<string>>) returns (video: int, audio: int)
    ensures video == FirstOfKind(tracks, VideoPrefix)
    ensures audio == FirstOfKind(tracks, AudioPrefix)
  {
    video, audio := -1, -1;
    var i := 0;
    while i < |tracks|
      invariant 0 <= i <= |tracks|
      invariant video == FirstOfKind(tracks[..i], VideoPrefix)
      invariant audio == FirstOfKind(tracks[..i], AudioPrefix)
    {
      assert tracks[..i + 1][..i] == tracks[..i];
      VideoAudioExclusive(tracks[i]);
      var mime := tracks[i];
      if mime.Some? {
        if VideoPrefix <= mime.value && video < 0 {
          video := i;
        } else if AudioPrefix <= mime.value && audio < 0 {
          audio := i;
        }
      }
      i := i + 1;
    }
    assert tracks[..i] == tracks;
  }

  lemma VideoAudioExclusive(mime: Option<string>)
    ensures !(IsKind(mime, VideoPrefix) && IsKind(mime, AudioPrefix))
  {
    assert IsKind(mime, VideoPrefix) ==> mime.value[0] == 'v';
    assert IsKind(mime, AudioPrefix) ==> mime.value[0] == 'a';
  }

  // ---------------------------------------------------------------------
  // The export flow
  // ---------------------------------------------------------------------

  datatype ExportState =
    | Preparing
    | Progress(percent: Percent, stage: string)
    | Completed(outputPath: string, fileSize: int)
    | Error(message: string)

  /** One encoder output: its presentation time, its size and its end-of-stream flag. */
  datatype Packet = Packet(ptsUs: int, size: int, endOfStream: bool)

  /** Where an exception is raised. */
  datatype Step =
    | OutputPath            // getOutputPath, before Progress(5)
    | OpenSource            // MediaExtractor / setDataSource, after Progress(5)
    | OpenCodecs            // muxer and codec creation, after Progress(10)
    | Encoding(packet: nat) // handling the encoder output with this position
    | CopyAudio             // adding the audio track to the muxer
    | AudioSample(sample: nat) // reading or writing the audio sample with this position
    | Release               // stopping and releasing the codecs, the muxer and the extractor
    | SaveOutput            // File.length and saveToGallery, after everything is released

  datatype Fault = Fault(step: Step, message: Option<string>)

  datatype Source = Source(
    tracks: seq<Option<string>>,
    durationUs: int,
    encoded: seq<Packet>,
    audioSizes: seq<int>,
    outputPath: string,
    fileSize: int,
    fault: Option<Fault>)

  /** What the muxer is asked to do. */
  datatype MuxerOp =
    | AddVideoTrack
    | StartMuxer
    | WriteVideo(ptsUs: int, size: int)
    | AddAudioTrack
    | WriteAudio(size: int)
    | ReleaseAll

  /** The catch block's message: the exception's own, or "Export failed". */
  function FaultMessage(f: Fault): string
  {
    if f.message.Some? then f.message.value else "Export failed"
  }

  predicate Throws(src: Source, step: Step)
  {
    src.fault.Some? && src.fault.value.step == step
  }

  /** A 32-bit float value as the progress arithmetic can give it: finite, infinite or NaN. */
  datatype Percent = Finite(value: real) | PositiveInfinity | NegativeInfinity | NotANumber

  /**
   * 10 + pts / duration × 80, in float arithmetic: a zero duration gives
   * +∞ or −∞ by the sign of pts, and NaN for 0 / 0.
   */
  function PacketProgress(ptsUs: int, durationUs: int): (percent: Percent)
    ensures percent.Finite? <==> durationUs != 0
    ensures durationUs == 0 ==> (percent.NotANumber? <==> ptsUs == 0) && (percent.PositiveInfinity? <==> ptsUs > 0)
    ensures durationUs > 0 && 0 <= ptsUs <= durationUs ==> 10.0 <= percent.value <= 90.0
    ensures durationUs < 0 && 0 <= ptsUs <= -durationUs ==> -70.0 <= percent.value <= 10.0
  {
    if durationUs == 0 then
      if ptsUs > 0 then PositiveInfinity else if ptsUs < 0 then NegativeInfinity else NotANumber
    else
      var frac := ptsUs as real / durationUs as real;
      assert 0 <= ptsUs <= durationUs ==> 0.0 <= frac <= 1.0 by {
        if 0 <= ptsUs <= durationUs {
          RealDivAtMostOne(ptsUs as real, durationUs as real);
        }
      }
      assert durationUs < 0 && 0 <= ptsUs <= -durationUs ==> -1.0 <= frac <= 0.0 by {
        if durationUs < 0 && 0 <= ptsUs <= -durationUs {
          RealDivAtMostOne(ptsUs as real, -durationUs as real);
          NegatedDivisor(ptsUs as real, -durationUs as real);
        }
      }
      Finite(10.0 + frac * 80.0)
  }

  lemma RealDivAtMostOne(a: real, b: real)
    requires 0.0 <= a <= b && b > 0.0
    ensures 0.0 <= a / b <= 1.0
  {
  }

  lemma NegatedDivisor(a: real, b: real)
    requires b > 0.0
    ensures a / -b == -(a / b)
  {
  }

  /**
   * The encoder outputs include an end of stream. Without one the video loop
   * has no exit but an exception or cancellation: it goes on polling the
   * codecs after the last output it is given.
   */
  predicate EndsStream(packets: seq<Packet>)
  {
    packets != [] && (packets[0].endOfStream || EndsStream(packets[1..]))
  }

  /** EndsStream holds exactly when some output carries the end-of-stream flag. */
  lemma {:induction false} EndsStreamSomewhere(packets: seq<Packet>)
    ensures EndsStream(packets) <==> exists j :: 0 <= j < |packets| && packets[j].endOfStream
  {
    if packets != [] {
      var rest := packets[1..];
      EndsStreamSomewhere(rest);
      if EndsStream(rest) {
        var j :| 0 <= j < |rest| && rest[j].endOfStream;
        assert packets[j + 1].endOfStream;
      }
      if exists j :: 0 <= j < |packets| && packets[j].endOfStream {
        var j :| 0 <= j < |packets| && packets[j].endOfStream;
        if j > 0 {
          assert rest[j - 1].endOfStream;
        }
      }
    }
  }

  /** How many encoder outputs the loop handles when nothing throws: up to and including the first end of stream. */
  function RunLength(packets: seq<Packet>): (n: nat)
    ensures n <= |packets|
  {
    if packets == [] then 0
    else if packets[0].endOfStream then 1
    else 1 + RunLength(packets[1..])
  }

  /**
   * RunLength ends exactly at the first end of stream when there is one;
   * without one it counts every output given, after which the loop is still
   * polling (Stalls).
   */
  lemma {:induction false} RunLengthStops(packets: seq<Packet>)
    ensures var n := RunLength(packets);
      (forall j :: 0 <= j < n - 1 ==> !packets[j].endOfStream)
      && (EndsStream(packets) <==> n >= 1 && packets[n - 1].endOfStream)
      && (!EndsStream(packets) ==> n == |packets|)
  {
    if packets != [] {
      var n := RunLength(packets);
      if packets[0].endOfStream {
        assert n == 1;
      } else {
        var rest := packets[1..];
        RunLengthStops(rest);
        forall j | 1 <= j < n ensures packets[j] == rest[j - 1] { }
        if n >= 2 {
          assert packets[n - 1] == rest[n - 2];
        }
      }
    }
  }

  /** The encoder outputs handled: the run, cut short by an exception raised while handling one of them. */
  function Handled(src: Source): nat
  {
    var n := RunLength(src.encoded);
    if src.fault.Some? && src.fault.value.step.Encoding? && src.fault.value.step.packet < n
    then src.fault.value.step.packet else n
  }

  /** An exception cuts the encoding loop short. */
  predicate EncodingThrows(src: Source)
  {
    src.fault.Some? && src.fault.value.step.Encoding? && src.fault.value.step.packet < RunLength(src.encoded)
  }

  /**
   * The video loop neither throws nor sees an end of stream: after the last
   * output it keeps polling until the flow is cancelled, and then the
   * Progress(90) emit throws the cancellation again, so nothing more is
   * emitted and nothing is released.
   */
  predicate Stalls(src: Source)
  {
    !EncodingThrows(src) && !EndsStream(src.encoded)
  }

  /** One Progress event per handled encoder output. */
  function EncodeEvents(packets: seq<Packet>, durationUs: int): seq<ExportState>
  {
    if packets == [] then []
    else
      var last := packets[|packets| - 1];
      EncodeEvents(packets[..|packets| - 1], durationUs)
        + [Progress(PacketProgress(last.ptsUs, durationUs), "Encoding video...")]
  }

  /** The video writes: one per handled encoder output with a non-empty buffer. */
  function VideoWrites(packets: seq<Packet>): seq<MuxerOp>
  {
    if packets == [] then []
    else
      var last := packets[|packets| - 1];
      VideoWrites(packets[..|packets| - 1])
        + (if last.size > 0 then [WriteVideo(last.ptsUs, last.size)] else [])
  }

  /** The muxer's video track is added and the muxer started on the first encoder output. */
  function EncodeLog(packets: seq<Packet>): seq<MuxerOp>
  {
    if packets == [] then [] else [AddVideoTrack, StartMuxer] + VideoWrites(packets)
  }

  function AudioWrites(sizes: seq<int>): seq<MuxerOp>
  {
    if sizes == [] then []
    else AudioWrites(sizes[..|sizes| - 1]) + [WriteAudio(sizes[|sizes| - 1])]
  }

  /**
   * The audio samples read before the end of the track: readSampleData's
   * sizes up to the first negative one, which breaks out of the copy. The
   * end of the sequence stands for the end of the track as well.
   */
  function AudioRun(sizes: seq<int>): (n: nat)
    ensures n <= |sizes|
  {
    if sizes == [] || sizes[0] < 0 then 0 else 1 + AudioRun(sizes[1..])
  }

  /** AudioRun covers exactly the non-negative sizes before the first negative one. */
  lemma {:induction false} AudioRunStops(sizes: seq<int>)
    ensures forall k :: 0 <= k < AudioRun(sizes) ==> sizes[k] >= 0
    ensures AudioRun(sizes) < |sizes| ==> sizes[AudioRun(sizes)] < 0
  {
    if sizes != [] && sizes[0] >= 0 {
      var rest := sizes[1..];
      AudioRunStops(rest);
      forall k | 1 <= k < AudioRun(sizes) ensures sizes[k] == rest[k - 1] { }
    }
  }

  /** An exception while handling one of the samples read. */
  predicate AudioSampleThrows(src: Source)
  {
    src.fault.Some? && src.fault.value.step.AudioSample? && src.fault.value.step.sample < AudioRun(src.audioSizes)
  }

  /** The audio copy stops at the end of the track or at an exception: the number of audio samples written. */
  function AudioCopied(src: Source): nat
  {
    if AudioSampleThrows(src) then src.fault.value.step.sample else AudioRun(src.audioSizes)
  }

  /** With an audio track, adding it or copying one of its samples throws. */
  predicate AudioThrows(src: Source)
  {
    FirstOfKind(src.tracks, AudioPrefix) >= 0
    && (Throws(src, CopyAudio) || AudioSampleThrows(src))
  }

  /** What export emits once the codecs are being opened: encoding, audio, finishing. */
  function FinishEvents(src: Source): seq<ExportState>
  {
    if Throws(src, OpenCodecs) then [Error(FaultMessage(src.fault.value))]
    else EncodeEvents(src.encoded[..Handled(src)], src.durationUs) + AfterEncoding(src)
  }

  /** After the video loop: the audio copy, the cleanup and the outcome, the loop's exception, or nothing when it stalls. */
  function AfterEncoding(src: Source): seq<ExportState>
  {
    if EncodingThrows(src) then [Error(FaultMessage(src.fault.value))]
    else if Stalls(src) then []
    else [Progress(Finite(90.0), "Processing audio...")] + AfterAudio(src)
  }

  /** After the audio copy: the cleanup and the outcome, or the copy's exception. */
  function AfterAudio(src: Source): seq<ExportState>
  {
    if AudioThrows(src) then [Error(FaultMessage(src.fault.value))]
    else if Throws(src, Release) || Throws(src, SaveOutput)
    then [Progress(Finite(95.0), "Finalizing..."), Error(FaultMessage(src.fault.value))]
    else [Progress(Finite(95.0), "Finalizing..."), Progress(Finite(100.0), "Done!"), Completed(src.outputPath, src.fileSize)]
  }

  /** The audio track's requests: the track, then one write per sample copied. */
  function AudioLog(src: Source): seq<MuxerOp>
  {
    if FirstOfKind(src.tracks, AudioPrefix) < 0 || Throws(src, CopyAudio) then []
    else [AddAudioTrack] + AudioWrites(src.audioSizes[..AudioCopied(src)])
  }

  /** What export asks of the muxer once the codecs are being opened. */
  function FinishLog(src: Source): seq<MuxerOp>
  {
    if Throws(src, OpenCodecs) then []
    else if EncodingThrows(src) || Stalls(src) then EncodeLog(src.encoded[..Handled(src)])
    else EncodeLog(src.encoded[..Handled(src)]) + AudioLog(src) + ReleaseLog(src)
  }

  /** The cleanup releases the muxer and codecs unless the audio copy or the cleanup itself throws. */
  function ReleaseLog(src: Source): seq<MuxerOp>
  {
    if AudioThrows(src) || Throws(src, Release) then [] else [ReleaseAll]
  }

  /** Export stops before the codecs: the output path or the source fails, or there is no video track. */
  predicate StopsEarly(src: Source)
  {
    Throws(src, OutputPath) || Throws(src, OpenSource) || FirstOfKind(src.tracks, VideoPrefix) < 0
  }

  /** Everything export emits, in order. */
  function ExportEvents(src: Source): seq<ExportState>
  {
    var opening := [Preparing, Progress(Finite(5.0), "Initializing encoder...")];
    if Throws(src, OutputPath) then [Preparing, Error(FaultMessage(src.fault.value))]
    else if Throws(src, OpenSource) then opening + [Error(FaultMessage(src.fault.value))]
    else if FirstOfKind(src.tracks, VideoPrefix) < 0 then opening + [Error("No video track found")]
    else opening + [Progress(Finite(10.0), "Processing video...")] + FinishEvents(src)
  }

  /** Everything export asks of the muxer, in order. */
  function ExportLog(src: Source): seq<MuxerOp>
  {
    if StopsEarly(src) then [] else FinishLog(src)
  }

  /**
   * export: emits the states and drives the muxer; returns both in order.
   */
  method RunExport(src: Source) returns (events: seq<ExportState>, log: seq<MuxerOp>)
    ensures events == ExportEvents(src)
    ensures log == ExportLog(src)
  {
    events := [Preparing];
    log := [];
    if Throws(src, OutputPath) {
      return events + [Error(FaultMessage(src.fault.value))], log;
    }
    events := events + [Progress(Finite(5.0), "Initializing encoder...")];
    if Throws(src, OpenSource) {
      return events + [Error(FaultMessage(src.fault.value))], log;
    }
    var videoTrack, audioTrack := SelectTracks(src.tracks);
    if videoTrack < 0 {
      return events + [Error("No video track found")], log;
    }
    events := events + [Progress(Finite(10.0), "Processing video...")];
    var rest;
    rest, log := Finish(src, audioTrack);
    events := events + rest;
  }

  /**
   * From the muxer and codecs onwards: encode, copy the audio track if there
   * is one, release and complete. A stalled video loop returns what it has
   * emitted and requested so far: the source never gets past it.
   */
  method Finish(src: Source, audioTrack: int) returns (events: seq<ExportState>, log: seq<MuxerOp>)
    requires audioTrack == FirstOfKind(src.tracks, AudioPrefix)
    ensures events == FinishEvents(src)
    ensures log == FinishLog(src)
  {
    if Throws(src, OpenCodecs) {
      return [Error(FaultMessage(src.fault.value))], [];
    }
    var thrown, stalled;
    events, log, thrown, stalled := EncodeLoop(src);
    if thrown {
      return events + [Error(FaultMessage(src.fault.value))], log;
    }
    if stalled {
      return events, log;
    }
    var rest, restLog := CopyAndRelease(src, audioTrack);
    events, log := events + rest, log + restLog;
  }

  /** After the video loop: copy the audio track if there is one, release, save and complete. */
  method CopyAndRelease(src: Source, audioTrack: int) returns (events: seq<ExportState>, log: seq<MuxerOp>)
    requires audioTrack == FirstOfKind(src.tracks, AudioPrefix) && !EncodingThrows(src) && !Stalls(src)
    ensures events == AfterEncoding(src)
    ensures log == AudioLog(src) + ReleaseLog(src)
  {
    events := [Progress(Finite(90.0), "Processing audio...")];
    log := [];
    if audioTrack >= 0 {
      if Throws(src, CopyAudio) {
        return events + [Error(FaultMessage(src.fault.value))], log;
      }
      var audioLog, audioThrown := CopyAudioSamples(src);
      log := [AddAudioTrack] + audioLog;
      if audioThrown {
        return events + [Error(FaultMessage(src.fault.value))], log;
      }
    }
    events := events + [Progress(Finite(95.0), "Finalizing...")];
    if Throws(src, Release) {
      return events + [Error(FaultMessage(src.fault.value))], log;
    }
    log := log + [ReleaseAll];
    if Throws(src, SaveOutput) {
      return events + [Error(FaultMessage(src.fault.value))], log;
    }
    events := events + [Progress(Finite(100.0), "Done!"), Completed(src.outputPath, src.fileSize)];
  }

  /** After i handled encoder outputs, none of which threw. */
  ghost predicate EncodedSoFar(src: Source, i: int, events: seq<ExportState>, log: seq<MuxerOp>)
  {
    0 <= i <= RunLength(src.encoded)
    && events == EncodeEvents(src.encoded[..i], src.durationUs)
    && log == EncodeLog(src.encoded[..i])
    && forall k :: 0 <= k < i ==> !Throws(src, Encoding(k))
  }

  lemma EncodeStep(src: Source, i: int, events: seq<ExportState>, log: seq<MuxerOp>)
    requires EncodedSoFar(src, i, events, log)
    requires i < RunLength(src.encoded) && !Throws(src, Encoding(i))
    ensures var p := src.encoded[i];
      EncodedSoFar(src, i + 1,
        events + [Progress(PacketProgress(p.ptsUs, src.durationUs), "Encoding video...")],
        log + (if i == 0 then [AddVideoTrack, StartMuxer] else [])
            + (if p.size > 0 then [WriteVideo(p.ptsUs, p.size)] else []))
  {
    assert src.encoded[..i + 1][..i] == src.encoded[..i];
  }

  /** The loop goes on past output i exactly when i is not the run's last output. */
  lemma RunLengthStep(packets: seq<Packet>, i: int)
    requires 0 <= i < RunLength(packets)
    ensures packets[i].endOfStream ==> i + 1 == RunLength(packets)
    ensures !packets[i].endOfStream && i + 1 < |packets| ==> i + 1 < RunLength(packets)
  {
    RunLengthStops(packets);
  }

  /**
   * The video loop: each encoder output starts the muxer if it has not
   * started, is written when non-empty and reports its progress, until the
   * end of stream or an exception. When the outputs run out without an end
   * of stream the loop reports that it stalls: the source would go on
   * polling the codecs until cancelled.
   */
  method EncodeLoop(src: Source) returns (events: seq<ExportState>, log: seq<MuxerOp>, thrown: bool, stalled: bool)
    ensures thrown == EncodingThrows(src)
    ensures stalled == Stalls(src)
    ensures events == EncodeEvents(src.encoded[..Handled(src)], src.durationUs)
    ensures log == EncodeLog(src.encoded[..Handled(src)])
  {
    var packets := src.encoded;
    events, log := [], [];
    var muxerStarted := false;
    var sawOutputEOS := false;
    var i := 0;
    while !sawOutputEOS && i < |packets|
      invariant EncodedSoFar(src, i, events, log)
      invariant sawOutputEOS ==> i == RunLength(packets)
      invariant !sawOutputEOS && i < |packets| ==> i < RunLength(packets)
      invariant muxerStarted <==> i > 0
      invariant !sawOutputEOS ==> forall k :: 0 <= k < i ==> !packets[k].endOfStream
      invariant sawOutputEOS ==> 1 <= i && packets[i - 1].endOfStream
    {
      if Throws(src, Encoding(i)) {
        return events, log, true, false;
      }
      var p := packets[i];
      EncodeStep(src, i, events, log);
      RunLengthStep(packets, i);
      if !muxerStarted {
        log := log + [AddVideoTrack, StartMuxer];
        muxerStarted := true;
      }
      if p.size > 0 {
        log := log + [WriteVideo(p.ptsUs, p.size)];
      }
      events := events + [Progress(PacketProgress(p.ptsUs, src.durationUs), "Encoding video...")];
      if p.endOfStream {
        sawOutputEOS := true;
      }
      i := i + 1;
    }
    LoopExitEndsStream(packets, i, sawOutputEOS);
    return events, log, false, !sawOutputEOS;
  }

  /** The video loop leaves with the end-of-stream flag set exactly when the stream ends. */
  lemma LoopExitEndsStream(packets: seq<Packet>, i: int, sawOutputEOS: bool)
    requires 0 <= i <= RunLength(packets)
    requires sawOutputEOS || i == |packets|
    requires !sawOutputEOS ==> forall k :: 0 <= k < i ==> !packets[k].endOfStream
    requires sawOutputEOS ==> i >= 1 && packets[i - 1].endOfStream
    ensures sawOutputEOS <==> EndsStream(packets)
  {
    RunLengthStops(packets);
  }

  /**
   * The audio copy loop: every sample read is written, empty ones included,
   * until a read reports a negative size (the end of the track) or a sample
   * throws.
   */
  method CopyAudioSamples(src: Source) returns (log: seq<MuxerOp>, thrown: bool)
    ensures thrown <==> AudioSampleThrows(src)
    ensures log == AudioWrites(src.audioSizes[..AudioCopied(src)])
  {
    var sizes := src.audioSizes;
    AudioRunStops(sizes);
    log := [];
    var j := 0;
    while j < |sizes|
      invariant 0 <= j <= |sizes|
      invariant j <= AudioCopied(src)
      invariant log == AudioWrites(sizes[..j])
    {
      if sizes[j] < 0 {
        break;
      }
      if Throws(src, AudioSample(j)) {
        return log, true;
      }
      assert sizes[..j + 1][..j] == sizes[..j];
      log := log + [WriteAudio(sizes[j])];
      j := j + 1;
    }
    return log, false;
  }

  // ---------------------------------------------------------------------
  // What the flow promises
  // ---------------------------------------------------------------------

  /** Every handled encoder output reports 10 + pts / duration × 80, in order. */
  lemma {:induction false} EncodeEventsReport(packets: seq<Packet>, durationUs: int)
    ensures |EncodeEvents(packets, durationUs)| == |packets|
    ensures forall i :: 0 <= i < |packets| ==>
      EncodeEvents(packets, durationUs)[i] == Progress(PacketProgress(packets[i].ptsUs, durationUs), "Encoding video...")
  {
    if packets != [] {
      var init := packets[..|packets| - 1];
      EncodeEventsReport(init, durationUs);
      forall i | 0 <= i < |init| ensures packets[i] == init[i] { }
    }
  }

  /** Only non-empty encoder outputs are written, each as a video sample. */
  lemma {:induction false} VideoWritesNonEmpty(packets: seq<Packet>)
    ensures |VideoWrites(packets)| <= |packets|
    ensures forall k :: 0 <= k < |VideoWrites(packets)| ==>
      VideoWrites(packets)[k].WriteVideo? && VideoWrites(packets)[k].size > 0
    ensures (forall i :: 0 <= i < |packets| ==> packets[i].size > 0) ==> |VideoWrites(packets)| == |packets|
  {
    if packets != [] {
      var init := packets[..|packets| - 1];
      VideoWritesNonEmpty(init);
      assert forall i :: 0 <= i < |init| ==> init[i] == packets[i];
    }
  }

  lemma {:induction false} AudioWritesOnly(sizes: seq<int>)
    ensures |AudioWrites(sizes)| == |sizes|
    ensures forall k :: 0 <= k < |sizes| ==> AudioWrites(sizes)[k] == WriteAudio(sizes[k])
  {
    if sizes != [] {
      var init := sizes[..|sizes| - 1];
      AudioWritesOnly(init);
      assert forall i :: 0 <= i < |init| ==> init[i] == sizes[i];
    }
  }

  /** With no track whose mime type starts with "video/": Preparing, Progress(5), Error("No video track found"), and no muxer at all. */
  lemma NoVideoTrack(src: Source)
    requires src.fault.None?
    requires forall i :: 0 <= i < |src.tracks| ==> !IsKind(src.tracks[i], VideoPrefix)
    ensures ExportEvents(src) == [Preparing, Progress(Finite(5.0), "Initializing encoder..."), Error("No video track found")]
    ensures ExportLog(src) == []
  {
    FirstOfKindIsFirst(src.tracks, VideoPrefix);
  }

  /**
   * Without an exception, with a video track and an encoder stream that
   * ends: Preparing, 5, 10, one progress per handled output, 90, 95, 100,
   * Completed.
   */
  lemma SuccessSequence(src: Source, v: nat)
    requires src.fault.None?
    requires v < |src.tracks| && IsKind(src.tracks[v], VideoPrefix)
    requires EndsStream(src.encoded)
    ensures ExportEvents(src) ==
      [Preparing, Progress(Finite(5.0), "Initializing encoder..."), Progress(Finite(10.0), "Processing video...")]
      + EncodeEvents(src.encoded[..RunLength(src.encoded)], src.durationUs)
      + [Progress(Finite(90.0), "Processing audio..."), Progress(Finite(95.0), "Finalizing..."), Progress(Finite(100.0), "Done!"),
         Completed(src.outputPath, src.fileSize)]
  {
    FirstOfKindIsFirst(src.tracks, VideoPrefix);
    assert !StopsEarly(src);
    var enc := EncodeEvents(src.encoded[..RunLength(src.encoded)], src.durationUs);
    assert AfterEncoding(src) == [Progress(Finite(90.0), "Processing audio...")] + AfterAudio(src);
    assert FinishEvents(src) == enc + AfterEncoding(src);
  }

  /**
   * Without an exception, with a video track and an encoder stream that
   * never ends: Preparing, 5, 10 and one progress per encoder output, and
   * then nothing more; the muxer is started but never released.
   */
  lemma StallSequence(src: Source, v: nat)
    requires src.fault.None?
    requires v < |src.tracks| && IsKind(src.tracks[v], VideoPrefix)
    requires !EndsStream(src.encoded)
    ensures ExportEvents(src) ==
      [Preparing, Progress(Finite(5.0), "Initializing encoder..."), Progress(Finite(10.0), "Processing video...")]
      + EncodeEvents(src.encoded, src.durationUs)
    ensures ExportLog(src) == EncodeLog(src.encoded)
    ensures ReleaseAll !in ExportLog(src)
  {
    FirstOfKindIsFirst(src.tracks, VideoPrefix);
    assert !StopsEarly(src);
    RunLengthStops(src.encoded);
    assert src.encoded[..Handled(src)] == src.encoded;
    assert FinishEvents(src) == EncodeEvents(src.encoded, src.durationUs);
    EncodeLogShape(src.encoded);
  }

  /** The video loop never gets past its last output: no exception and no end of stream. */
  predicate FinishStalls(src: Source)
  {
    !Throws(src, OpenCodecs) && Stalls(src)
  }

  /** Export keeps polling the codecs after the video track was found. */
  predicate Hangs(src: Source)
  {
    !StopsEarly(src) && FinishStalls(src)
  }

  /** Export completes: no early stop and no exception on the way. */
  predicate Succeeds(src: Source)
  {
    !StopsEarly(src) && FinishSucceeds(src)
  }

  /** No exception from the muxer and codecs onwards. */
  predicate FinishSucceeds(src: Source)
  {
    !Throws(src, OpenCodecs) && !EncodingThrows(src) && EndsStream(src.encoded) && !AudioThrows(src)
    && !Throws(src, Release) && !Throws(src, SaveOutput)
  }

  /** The codecs, the muxer and the extractor are stopped and released. */
  predicate Released(src: Source)
  {
    !StopsEarly(src) && !Throws(src, OpenCodecs) && !EncodingThrows(src) && EndsStream(src.encoded)
    && !AudioThrows(src) && !Throws(src, Release)
  }

  /** Export stops because no video track was found. */
  predicate NoVideo(src: Source)
  {
    !Throws(src, OutputPath) && !Throws(src, OpenSource) && FirstOfKind(src.tracks, VideoPrefix) < 0
  }

  predicate AllProgress(e: seq<ExportState>)
  {
    forall i :: 0 <= i < |e| ==> e[i].Progress?
  }

  /** Every percentage reported lies in [5, 100]. */
  predicate PercentsInRange(e: seq<ExportState>)
  {
    forall i :: 0 <= i < |e| && e[i].Progress? ==> e[i].percent.Finite? && 5.0 <= e[i].percent.value <= 100.0
  }

  lemma AppendProgress(a: seq<ExportState>, b: seq<ExportState>)
    ensures AllProgress(a) && AllProgress(b) ==> AllProgress(a + b)
    ensures PercentsInRange(a) && PercentsInRange(b) ==> PercentsInRange(a + b)
  {
    var ab := a + b;
    assert forall i :: |a| <= i < |ab| ==> ab[i] == b[i - |a|];
  }

  /**
   * What follows the video loop: nothing when it stalls, otherwise progress
   * reports in [5, 100], then Completed or the exception's message.
   */
  lemma AfterEncodingOutcome(src: Source)
    requires !Throws(src, OpenCodecs)
    ensures var t := AfterEncoding(src);
      (t == [] <==> Stalls(src)) && PercentsInRange(t)
      && (!Stalls(src) ==>
        AllProgress(t[..|t| - 1]) && !t[|t| - 1].Progress?
        && (FinishSucceeds(src) ==> t[|t| - 1] == Completed(src.outputPath, src.fileSize))
        && (!FinishSucceeds(src) ==> src.fault.Some? && t[|t| - 1] == Error(FaultMessage(src.fault.value))))
  {
    if !EncodingThrows(src) && !Stalls(src) {
      var t := AfterEncoding(src);
      var a := AfterAudio(src);
      assert t == [Progress(Finite(90.0), "Processing audio...")] + a;
      assert t[..|t| - 1] == [Progress(Finite(90.0), "Processing audio...")] + a[..|a| - 1];
    }
  }

  /**
   * The events after Progress(10): when the video loop stalls, one progress
   * report per encoder output and nothing after them; otherwise progress
   * reports, then Completed or the exception's message.
   */
  lemma FinishOutcome(src: Source)
    ensures var f := FinishEvents(src);
      (FinishStalls(src) ==> f == EncodeEvents(src.encoded, src.durationUs) && AllProgress(f))
      && (!FinishStalls(src) ==>
        |f| >= 1 && AllProgress(f[..|f| - 1]) && !f[|f| - 1].Progress?
        && (FinishSucceeds(src) ==> f[|f| - 1] == Completed(src.outputPath, src.fileSize))
        && (!FinishSucceeds(src) ==> src.fault.Some? && f[|f| - 1] == Error(FaultMessage(src.fault.value))))
  {
    if !Throws(src, OpenCodecs) {
      var ps := src.encoded[..Handled(src)];
      var enc := EncodeEvents(ps, src.durationUs);
      EncodeEventsReport(ps, src.durationUs);
      assert AllProgress(enc);
      var t := AfterEncoding(src);
      AfterEncodingOutcome(src);
      var f := FinishEvents(src);
      if Stalls(src) {
        RunLengthStops(src.encoded);
        assert ps == src.encoded;
        assert f == enc;
      } else {
        assert f[..|f| - 1] == enc + t[..|t| - 1];
        AppendProgress(enc, t[..|t| - 1]);
      }
    }
  }

  /**
   * The flow opens with Preparing and reports progress. It ends with exactly
   * one outcome, unless it hangs in the video loop, where the last event is
   * a progress report: Completed when it succeeds, the missing-track error,
   * or the exception's message (or "Export failed").
   */
  lemma ExportOutcome(src: Source)
    ensures var e := ExportEvents(src);
      |e| >= 2 && e[0] == Preparing
      && (forall i :: 1 <= i < |e| - 1 ==> e[i].Progress?)
      && (e[|e| - 1].Progress? <==> Hangs(src))
      && (Succeeds(src) <==> e[|e| - 1] == Completed(src.outputPath, src.fileSize))
      && (NoVideo(src) ==> e[|e| - 1] == Error("No video track found"))
      && (!Succeeds(src) && !NoVideo(src) && !Hangs(src) ==> src.fault.Some? && e[|e| - 1] == Error(FaultMessage(src.fault.value)))
  {
    var e := ExportEvents(src);
    if StopsEarly(src) {
      assert !Succeeds(src) && !Hangs(src);
    } else {
      assert !NoVideo(src);
      assert Succeeds(src) == FinishSucceeds(src) && Hangs(src) == FinishStalls(src);
      var f := FinishEvents(src);
      FinishOutcome(src);
      var opening := [Preparing, Progress(Finite(5.0), "Initializing encoder..."), Progress(Finite(10.0), "Processing video...")];
      assert e == opening + f;
      if FinishStalls(src) {
        AppendProgress(opening[1..], f);
        assert e[1..] == opening[1..] + f;
        assert e[|e| - 1] == e[1..][|e| - 2];
      } else {
        OpeningThenOutcome(opening, f);
      }
    }
  }

  /** Progress reports followed by events that end in one outcome keep that outcome last. */
  lemma OpeningThenOutcome(opening: seq<ExportState>, f: seq<ExportState>)
    requires |opening| >= 1 && AllProgress(opening[1..])
    requires |f| >= 1 && AllProgress(f[..|f| - 1])
    ensures var e := opening + f;
      e[0] == opening[0] && e[|e| - 1] == f[|f| - 1]
      && forall i :: 1 <= i < |e| - 1 ==> e[i].Progress?
  {
    var e := opening + f;
    AppendProgress(opening[1..], f[..|f| - 1]);
    var middle := e[1..|e| - 1];
    assert middle == opening[1..] + f[..|f| - 1];
    forall i | 1 <= i < |e| - 1 ensures e[i].Progress? {
      assert e[i] == middle[i - 1];
    }
  }

  /** The percentages of the encoding reports lie in [10, 90] when each presentation time lies within the duration. */
  lemma FinishInRange(src: Source)
    requires src.durationUs > 0
    requires forall i :: 0 <= i < |src.encoded| ==> 0 <= src.encoded[i].ptsUs <= src.durationUs
    ensures PercentsInRange(FinishEvents(src))
  {
    var ps := src.encoded[..Handled(src)];
    var enc := EncodeEvents(ps, src.durationUs);
    EncodeEventsReport(ps, src.durationUs);
    assert PercentsInRange(enc) by {
      forall i | 0 <= i < |enc| ensures enc[i].percent.Finite? && 5.0 <= enc[i].percent.value <= 100.0 {
        assert ps[i] == src.encoded[i];
      }
    }
    if !Throws(src, OpenCodecs) {
      AfterEncodingOutcome(src);
      AppendProgress(enc, AfterEncoding(src));
    }
  }

  /**
   * With a zero duration the first encoding report is not a number: +∞ when
   * its presentation time is positive, NaN when it is zero.
   */
  lemma ZeroDurationProgress(src: Source)
    requires src.durationUs == 0 && src.fault.None? && FirstOfKind(src.tracks, VideoPrefix) >= 0
    requires |src.encoded| >= 1 && src.encoded[0].ptsUs >= 0
    ensures var e := ExportEvents(src);
      |e| >= 4 && e[3].Progress? && !e[3].percent.Finite?
      && (e[3].percent.NotANumber? <==> src.encoded[0].ptsUs == 0)
      && !PercentsInRange(e)
  {
    var ps := src.encoded[..Handled(src)];
    assert |ps| >= 1 by {
      assert RunLength(src.encoded) >= 1;
    }
    EncodeEventsReport(ps, 0);
    var enc := EncodeEvents(ps, 0);
    var e := ExportEvents(src);
    assert e == [Preparing, Progress(Finite(5.0), "Initializing encoder..."), Progress(Finite(10.0), "Processing video...")]
      + (enc + AfterEncoding(src));
    assert e[3] == enc[0];
  }

  /** Every percentage export reports lies in [5, 100] when each presentation time lies within the duration. */
  lemma ProgressInRange(src: Source)
    requires src.durationUs > 0
    requires forall i :: 0 <= i < |src.encoded| ==> 0 <= src.encoded[i].ptsUs <= src.durationUs
    ensures PercentsInRange(ExportEvents(src))
  {
    if !StopsEarly(src) {
      FinishInRange(src);
      AppendProgress([Preparing, Progress(Finite(5.0), "Initializing encoder..."), Progress(Finite(10.0), "Processing video...")],
                     FinishEvents(src));
    }
  }

  /**
   * The muxer is started at most once, right after the video track is added
   * and before any video write; only non-empty buffers are written.
   */
  predicate StartedBeforeVideoWrites(log: seq<MuxerOp>)
  {
    (forall i :: 0 <= i < |log| && log[i] == StartMuxer ==> i == 1 && log[0] == AddVideoTrack)
    && (forall j :: 0 <= j < |log| && log[j].WriteVideo? ==> 1 < j && log[1] == StartMuxer && log[j].size > 0)
  }

  /** The encoding loop's own requests keep the discipline and release nothing. */
  lemma EncodeLogShape(packets: seq<Packet>)
    ensures StartedBeforeVideoWrites(EncodeLog(packets))
    ensures ReleaseAll !in EncodeLog(packets)
  {
    VideoWritesNonEmpty(packets);
    var w := VideoWrites(packets);
    if packets != [] {
      var log := EncodeLog(packets);
      assert log == [AddVideoTrack, StartMuxer] + w;
      forall k | 2 <= k < |log| ensures log[k] == w[k - 2] { }
    }
  }

  /** Requests that neither start the muxer nor write video keep the discipline. */
  lemma AppendKeepsDiscipline(log: seq<MuxerOp>, tail: seq<MuxerOp>)
    requires StartedBeforeVideoWrites(log)
    requires forall k :: 0 <= k < |tail| ==> tail[k] != StartMuxer && !tail[k].WriteVideo?
    ensures StartedBeforeVideoWrites(log + tail)
  {
    var all := log + tail;
    forall j | |log| <= j < |all| ensures all[j] == tail[j - |log|] { }
  }

  /**
   * The audio track's requests add the track first and then write samples,
   * never one whose read reported the end of the track, and nothing else.
   */
  lemma AudioLogShape(src: Source)
    ensures forall k :: 0 <= k < |AudioLog(src)| ==>
      (AudioLog(src)[k].AddAudioTrack? <==> k == 0)
      && (AudioLog(src)[k].WriteAudio? <==> k > 0)
      && (AudioLog(src)[k].WriteAudio? ==> AudioLog(src)[k].size >= 0)
  {
    var audio := AudioLog(src);
    if audio != [] {
      var sizes := src.audioSizes[..AudioCopied(src)];
      var copied := AudioWrites(sizes);
      AudioWritesOnly(sizes);
      AudioRunStops(src.audioSizes);
      assert audio == [AddAudioTrack] + copied;
      forall k | 1 <= k < |audio| ensures audio[k] == WriteAudio(src.audioSizes[k - 1]) && src.audioSizes[k - 1] >= 0 {
        assert audio[k] == copied[k - 1];
      }
    }
  }

  /**
   * The muxer discipline holds for every export, and the muxer and codecs
   * are released exactly when the flow gets past the cleanup: when export
   * completes, or when only saving the output throws.
   */
  lemma MuxerDiscipline(src: Source)
    ensures StartedBeforeVideoWrites(ExportLog(src))
    ensures ReleaseAll in ExportLog(src) <==> Released(src)
    ensures Succeeds(src) ==> Released(src)
  {
    var enc := EncodeLog(src.encoded[..Handled(src)]);
    EncodeLogShape(src.encoded[..Handled(src)]);
    var log := ExportLog(src);
    if !StopsEarly(src) && !Throws(src, OpenCodecs) && !EncodingThrows(src) && !Stalls(src) {
      var audio := AudioLog(src);
      AudioLogShape(src);
      AppendKeepsDiscipline(enc, audio);
      if AudioThrows(src) || Throws(src, Release) {
        assert log == enc + audio + [];
      } else {
        AppendKeepsDiscipline(enc + audio, [ReleaseAll]);
        assert log == enc + audio + [ReleaseAll];
        assert log[|log| - 1] == ReleaseAll;
      }
    }
  }

  /**
   * The audio track is added only after the muxer has started: an export
   * that reaches the audio copy has seen an end of stream, so the video
   * track was added and the muxer started first.
   */
  lemma StartBeforeAudioTrack(src: Source)
    ensures var log := ExportLog(src);
      forall j :: 0 <= j < |log| && log[j] == AddAudioTrack ==>
        2 <= j && log[0] == AddVideoTrack && log[1] == StartMuxer
  {
    var log := ExportLog(src);
    var ps := src.encoded[..Handled(src)];
    var enc := EncodeLog(ps);
    VideoWritesNonEmpty(ps);
    assert forall k :: 0 <= k < |enc| ==> enc[k] != AddAudioTrack by {
      if ps != [] {
        forall k | 2 <= k < |enc| ensures enc[k] == VideoWrites(ps)[k - 2] { }
      }
    }
    if !StopsEarly(src) && !Throws(src, OpenCodecs) && !EncodingThrows(src) && !Stalls(src) {
      RunLengthStops(src.encoded);
      assert ps != [];
      var rest := AudioLog(src) + ReleaseLog(src);
      assert log == enc + rest;
    }
  }

}
