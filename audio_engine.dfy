// AudioEngine (audio_engine.h / audio_engine.cpp): the table of decoded
// tracks keyed by id, the playback state, and getMixedAudio, which adds
// every audible track into a stereo 16-bit buffer with saturation.
// Decoding (MediaExtractor / MediaCodec) and OpenSL ES output are platform
// I/O: the decoder's result is an input of AddTrack.
module AudioEngine {
  import opened Common

  const SampleRate: int := 44100
  const Channels: int := 2

  /** AudioTrack. position and duration are microseconds; volume is a float. */
  datatype Track = Track(
    id: int,
    filePath: string,
    position: int,
    duration: int,
    volume: real,
    isMuted: bool,
    samples: seq<int>,
    sampleRate: int,
    channels: int)

  /** What decodeAudioFile fills in on success: PCM samples and the stream's format. */
  datatype Decoded = Decoded(samples: seq<int>, sampleRate: int, channels: int, duration: int)

  /** AudioSample: interleaved 16-bit samples and their format. */
  datatype AudioSample = AudioSample(data: seq<int>, sampleRate: int, channels: int, timestampUs: int)

  /** A decoder result: 16-bit samples and a positive rate and channel count. */
  predicate ValidDecoded(d: Decoded)
  {
    d.sampleRate > 0 && d.channels > 0 && forall i :: 0 <= i < |d.samples| ==> IsShort(d.samples[i])
  }

  predicate ValidTrack(t: Track)
  {
    t.sampleRate > 0 && t.channels > 0 && 0.0 <= t.volume <= 1.0
    && forall i :: 0 <= i < |t.samples| ==> IsShort(t.samples[i])
  }

  /** The track addTrack stores: volume 1, unmuted, format and samples from the decoder. */
  function NewTrack(id: int, filePath: string, position: int, d: Decoded): (t: Track)
    ensures t.id == id && t.position == position && t.volume == 1.0 && !t.isMuted
    ensures ValidDecoded(d) ==> ValidTrack(t)
  {
    Track(id, filePath, position, d.duration, 1.0, false, d.samples, d.sampleRate, d.channels)
  }

  // ---------------------------------------------------------------------
  // getMixedAudio
  // ---------------------------------------------------------------------

  /**
   * (duration * 44100 / 1000000) * 2 interleaved samples for a duration in
   * microseconds, in int64 arithmetic: the product wraps and the division
   * truncates toward zero, so a duration of −1000000 / 44100 µs or less
   * gives a negative count.
   */
  function NumSamples(duration: int): (n: int)
    ensures n % Channels == 0
    ensures n < 0 <==> ToInt64(duration * SampleRate) <= -1000000
    ensures 0 <= duration * SampleRate < 0x8000_0000_0000_0000 ==> n == (duration * SampleRate / 1000000) * Channels
  {
    CDiv(ToInt64(duration * SampleRate), 1000000) * Channels
  }

  /** Every duration of at least 0 that does not overflow the product gives 0 or more samples, 2 per 1/44100 s. */
  lemma {:induction false} NumSamplesCounts(duration: int)
    requires 0 <= duration && duration * SampleRate < 0x8000_0000_0000_0000
    ensures NumSamples(duration) >= 0
    ensures NumSamples(duration) / Channels * 1000000 <= duration * SampleRate < (NumSamples(duration) / Channels + 1) * 1000000
  {
    var q := duration * SampleRate / 1000000;
    assert NumSamples(duration) == q * Channels;
    assert NumSamples(duration) / Channels == q;
  }

  /** A track plays at position: unmuted, volume above 0, and position inside [start, start + duration). */
  predicate Audible(t: Track, position: int)
  {
    !t.isMuted && t.volume > 0.0 && 0 <= position - t.position < t.duration
  }

  /** The index of the track's sample at position: the time offset converted to interleaved samples. */
  function SampleOffset(t: Track, position: int): (r: int)
    requires t.sampleRate > 0 && position >= t.position
    ensures t.channels >= 0 ==> r >= 0
  {
    var elapsed := (position - t.position) * t.sampleRate;
    assert elapsed >= 0 by { NonnegProduct(position - t.position, t.sampleRate); }
    NonnegProduct(elapsed / 1000000, t.channels);
    (elapsed / 1000000) * t.channels
  }

  lemma NonnegProduct(a: int, b: int)
    requires a >= 0
    ensures b >= 0 ==> a * b >= 0
  {
  }

  /** static_cast<int32_t>(sample * volume): the scaled sample, truncated toward zero. */
  function Scaled(sample: int, volume: real): int
  {
    Trunc(sample as real * volume)
  }

  /** Sample i of out after adding track t. */
  function MixedSample(out: seq<int>, t: Track, position: int, master: real, i: int): int
    requires 0 <= i < |out| && t.sampleRate > 0
  {
    if Audible(t, position) && 0 <= SampleOffset(t, position) + i < |t.samples|
    then Saturate(out[i] + Scaled(t.samples[SampleOffset(t, position) + i], t.volume * master))
    else out[i]
  }

  /** The buffer after one pass of the track loop: each covered sample added with saturation. */
  function MixTrack(out: seq<int>, t: Track, position: int, master: real): (r: seq<int>)
    requires t.sampleRate > 0
    ensures |r| == |out|
  {
    seq(|out|, i requires 0 <= i < |out| => MixedSample(out, t, position, master, i))
  }

  /** The buffer after the tracks listed in order have been mixed in, in that order. */
  function MixAll(out: seq<int>, tracks: map<int, Track>, order: seq<int>, position: int, master: real): (r: seq<int>)
    requires forall id :: id in order ==> id in tracks && tracks[id].sampleRate > 0
    ensures |r| == |out|
    decreases |order|
  {
    if order == [] then out
    else
      var last := order[|order| - 1];
      MixTrack(MixAll(out, tracks, order[..|order| - 1], position, master), tracks[last], position, master)
  }

  // ---------------------------------------------------------------------
  // getMixedAudio: properties
  // ---------------------------------------------------------------------

  /**
   * With track and master volume in [0, 1], a scaled 16-bit sample stays
   * within [-32768, 32768], so the int32 accumulation cannot overflow.
   */
  lemma {:induction false} ScaledBounded(sample: int, volume: real)
    requires IsShort(sample) && 0.0 <= volume <= 1.0
    ensures -32768 <= Scaled(sample, volume) <= 32768
    ensures volume == 1.0 ==> Scaled(sample, volume) == sample
    ensures volume == 0.0 ==> Scaled(sample, volume) == 0
  {
    if sample >= 0 {
      RealMulBetween(sample as real, volume);
    } else {
      RealMulBetween(-sample as real, volume);
      assert sample as real * volume == -((-sample) as real * volume);
    }
  }

  /** Mixing keeps every sample 16-bit; a track that is not audible leaves the buffer as it was. */
  lemma {:induction false} MixTrackProperties(out: seq<int>, t: Track, position: int, master: real)
    requires t.sampleRate > 0
    ensures (forall i :: 0 <= i < |out| ==> IsShort(out[i])) ==>
      forall i :: 0 <= i < |out| ==> IsShort(MixTrack(out, t, position, master)[i])
    ensures !Audible(t, position) ==> MixTrack(out, t, position, master) == out
  {
  }

  /**
   * Samples past the end of the track are untouched: only indices i with
   * offset + i inside the track's samples change.
   */
  lemma {:induction false} MixTrackStaysInside(out: seq<int>, t: Track, position: int, master: real, i: int)
    requires t.sampleRate > 0 && 0 <= i < |out| && Audible(t, position)
    requires SampleOffset(t, position) + i >= |t.samples|
    ensures MixTrack(out, t, position, master)[i] == out[i]
  {
  }

  /**
   * One audible track at full track and master volume mixed into silence
   * reproduces its samples from the offset on, and leaves 0 past its end.
   */
  lemma {:induction false} MixTrackCopies(n: nat, t: Track, position: int)
    requires ValidTrack(t) && Audible(t, position) && t.volume == 1.0
    ensures var r := MixTrack(seq(n, _ => 0), t, position, 1.0);
      forall i :: 0 <= i < n ==>
        r[i] == if SampleOffset(t, position) + i < |t.samples| then t.samples[SampleOffset(t, position) + i] else 0
  {
    var out := seq(n, _ => 0);
    var r := MixTrack(out, t, position, 1.0);
    var offset := SampleOffset(t, position);
    assert t.volume * 1.0 == 1.0;
    forall i | 0 <= i < n && offset + i < |t.samples|
      ensures r[i] == t.samples[offset + i]
    {
      var s := t.samples[offset + i];
      ScaledBounded(s, 1.0);
      assert r[i] == Saturate(out[i] + Scaled(s, 1.0));
    }
  }

  /** The mixed buffer holds 16-bit samples; with no audible track it stays as it started. */
  lemma {:induction false} MixAllProperties(out: seq<int>, tracks: map<int, Track>, order: seq<int>, position: int, master: real)
    requires forall id :: id in order ==> id in tracks && tracks[id].sampleRate > 0
    ensures (forall i :: 0 <= i < |out| ==> IsShort(out[i])) ==>
      forall i :: 0 <= i < |out| ==> IsShort(MixAll(out, tracks, order, position, master)[i])
    ensures (forall id :: id in order ==> !Audible(tracks[id], position)) ==>
      MixAll(out, tracks, order, position, master) == out
    decreases |order|
  {
    if order != [] {
      var init := order[..|order| - 1];
      assert forall id :: id in init ==> id in order;
      var last := order[|order| - 1];
      assert last in order;
      assert last in tracks && tracks[last].sampleRate > 0;
      MixAllProperties(out, tracks, init, position, master);
      MixTrackProperties(MixAll(out, tracks, init, position, master), tracks[last], position, master);
    }
  }

  /** Each id appears once: the iteration visits every track exactly once. */
  predicate Distinct(s: seq<int>)
  {
    forall i, j :: 0 <= i < j < |s| ==> s[i] != s[j]
  }

  // ---------------------------------------------------------------------
  // The AudioEngine object
  // ---------------------------------------------------------------------

  class AudioEngine {
    var tracks: map<int, Track>
    var nextTrackId: int
    var masterVolume: real
    var currentPosition: int
    var initialized: bool
    var playing: bool

    /** Ids are below the counter and stored in the track; volumes stay in [0, 1]. */
    ghost predicate Valid()
      reads this
    {
      nextTrackId >= 1
      && (forall id :: id in tracks ==> 1 <= id < nextTrackId && tracks[id].id == id && ValidTrack(tracks[id]))
      && 0.0 <= masterVolume <= 1.0
    }

    constructor ()
      ensures Valid() && tracks == map[] && nextTrackId == 1 && masterVolume == 1.0
      ensures currentPosition == 0 && !initialized && !playing
    {
      tracks := map[];
      nextTrackId := 1;
      masterVolume := 1.0;
      currentPosition := 0;
      initialized := false;
      playing := false;
    }

    /** release: the OpenSL objects are destroyed (not modelled) and the table emptied. */
    method Release()
      requires Valid()
      modifies this
      ensures Valid() && tracks == map[] && !initialized
      ensures nextTrackId == old(nextTrackId) && masterVolume == old(masterVolume)
      ensures currentPosition == old(currentPosition) && playing == old(playing)
    {
      tracks := map[];
      initialized := false;
    }

    method Play()
      modifies this`playing
      ensures playing
    {
      playing := true;
    }

    method Pause()
      modifies this`playing
      ensures !playing
    {
      playing := false;
    }

    method Stop()
      modifies this`playing, this`currentPosition
      ensures !playing && currentPosition == 0
    {
      playing := false;
      currentPosition := 0;
    }

    method SeekTo(position: int)
      modifies this`currentPosition
      ensures currentPosition == position
    {
      currentPosition := position;
    }

    /**
     * addTrack: the id is taken before decoding, so a failed decode still
     * consumes it; only a successful decode stores the track.
     */
    method AddTrack(filePath: string, position: int, decoded: Option<Decoded>) returns (ok: bool)
      requires Valid() && (decoded.Some? ==> ValidDecoded(decoded.value))
      modifies this`tracks, this`nextTrackId
      ensures Valid() && nextTrackId == old(nextTrackId) + 1
      ensures ok == decoded.Some?
      ensures ok ==> tracks == old(tracks)[old(nextTrackId) := NewTrack(old(nextTrackId), filePath, position, decoded.value)]
      ensures !ok ==> tracks == old(tracks)
      ensures old(nextTrackId) !in old(tracks)
    {
      var id := nextTrackId;
      nextTrackId := nextTrackId + 1;
      if decoded.None? {
        return false;
      }
      tracks := tracks[id := NewTrack(id, filePath, position, decoded.value)];
      ok := true;
    }

    method RemoveTrack(trackId: int) returns (ok: bool)
      requires Valid()
      modifies this`tracks
      ensures Valid() && ok == (trackId in old(tracks))
      ensures tracks == old(tracks) - {trackId}
    {
      if trackId !in tracks {
        return false;
      }
      tracks := tracks - {trackId};
      ok := true;
    }

    /** setVolume: clamped to [0, 1]. */
    method SetVolume(trackId: int, volume: real) returns (ok: bool)
      requires Valid()
      modifies this`tracks
      ensures Valid() && ok == (trackId in old(tracks))
      ensures ok ==> tracks == old(tracks)[trackId := old(tracks)[trackId].(volume := ClampReal(volume, 0.0, 1.0))]
      ensures !ok ==> tracks == old(tracks)
    {
      if trackId !in tracks {
        return false;
      }
      tracks := tracks[trackId := tracks[trackId].(volume := ClampReal(volume, 0.0, 1.0))];
      ok := true;
    }

    method SetMute(trackId: int, muted: bool) returns (ok: bool)
      requires Valid()
      modifies this`tracks
      ensures Valid() && ok == (trackId in old(tracks))
      ensures ok ==> tracks == old(tracks)[trackId := old(tracks)[trackId].(isMuted := muted)]
      ensures !ok ==> tracks == old(tracks)
    {
      if trackId !in tracks {
        return false;
      }
      tracks := tracks[trackId := tracks[trackId].(isMuted := muted)];
      ok := true;
    }

    /** setMasterVolume: clamped to [0, 1]. */
    method SetMasterVolume(volume: real)
      requires Valid()
      modifies this`masterVolume
      ensures Valid() && masterVolume == ClampReal(volume, 0.0, 1.0)
    {
      masterVolume := ClampReal(volume, 0.0, 1.0);
    }

    /**
     * getMixedAudio: a zeroed buffer of NumSamples(duration) samples into
     * which every track is mixed, in the table's iteration order. A negative
     * count converts to a size_t no vector can hold, and resize throws
     * std::length_error (None).
     */
    method GetMixedAudio(position: int, duration: int, order: seq<int>) returns (result: Option<AudioSample>)
      requires Valid()
      requires Distinct(order) && forall id :: id in order <==> id in tracks
      ensures result.None? <==> NumSamples(duration) < 0
      ensures result.Some? ==> var output := result.value;
        output.sampleRate == SampleRate && output.channels == Channels && output.timestampUs == position
        && output.data == MixAll(seq(NumSamples(duration), _ => 0), tracks, order, position, masterVolume)
    {
      var numSamples := NumSamples(duration);
      if numSamples < 0 {
        return None;
      }
      var data := new int[numSamples](_ => 0);
      ghost var zeros := data[..];
      var k := 0;
      while k < |order|
        invariant 0 <= k <= |order|
        invariant data[..] == MixAll(zeros, tracks, order[..k], position, masterVolume)
      {
        assert order[..k + 1][..k] == order[..k];
        var track := tracks[order[k]];
        if !(track.isMuted || track.volume <= 0.0) {
          var trackOffset := position - track.position;
          if !(trackOffset < 0 || trackOffset >= track.duration) {
            MixTrackInto(data, track, position, masterVolume);
          } else {
            assert MixTrack(data[..], track, position, masterVolume) == data[..];
          }
        } else {
          assert MixTrack(data[..], track, position, masterVolume) == data[..];
        }
        k := k + 1;
      }
      assert order[..|order|] == order;
      assert zeros == seq(numSamples, _ => 0);
      result := Some(AudioSample(data[..], SampleRate, Channels, position));
    }

    /** The inner sample loop for one audible track. */
    static method MixTrackInto(data: array<int>, track: Track, position: int, master: real)
      requires track.sampleRate > 0 && track.channels > 0 && Audible(track, position)
      modifies data
      ensures data[..] == MixTrack(old(data[..]), track, position, master)
    {
      ghost var before := data[..];
      var sampleOffset := SampleOffset(track, position);
      var volume := track.volume * master;
      var i := 0;
      while i < data.Length && sampleOffset + i < |track.samples|
        invariant 0 <= i <= data.Length
        invariant MixedPrefix(data[..], before, track, position, master, i)
      {
        var mixed := data[i] + Scaled(track.samples[sampleOffset + i], volume);
        ghost var prev := data[..];
        data[i] := Max(-32768, Min(32767, mixed));
        MixedPrefixStep(prev, data[..], before, track, position, master, i);
        i := i + 1;
      }
      MixedPrefixDone(data[..], before, track, position, master, i);
    }
  }

  /** The first i samples of cur are mixed; the rest are as before. */
  ghost predicate MixedPrefix(cur: seq<int>, before: seq<int>, t: Track, position: int, master: real, i: int)
    requires t.sampleRate > 0
  {
    |cur| == |before| && 0 <= i <= |cur|
    && forall j :: 0 <= j < |cur| ==> cur[j] == if j < i then MixedSample(before, t, position, master, j) else before[j]
  }

  /** Writing the saturated sum to sample i extends the mixed prefix by one. */
  lemma MixedPrefixStep(prev: seq<int>, cur: seq<int>, before: seq<int>, t: Track, position: int, master: real, i: int)
    requires t.sampleRate > 0 && t.channels > 0 && Audible(t, position)
    requires MixedPrefix(prev, before, t, position, master, i) && i < |prev|
    requires 0 <= SampleOffset(t, position) + i < |t.samples|
    requires cur == prev[i := Max(-32768, Min(32767, prev[i] + Scaled(t.samples[SampleOffset(t, position) + i], t.volume * master)))]
    ensures MixedPrefix(cur, before, t, position, master, i + 1)
  {
    assert prev[i] == before[i];
    MixedSampleHit(before, t, position, master, i);
    SaturateIsMaxMin(before[i] + Scaled(t.samples[SampleOffset(t, position) + i], t.volume * master));
    forall j | 0 <= j < |cur| && j != i
      ensures cur[j] == if j < i + 1 then MixedSample(before, t, position, master, j) else before[j]
    {
      assert cur[j] == prev[j];
    }
  }

  /** A sample the track reaches is the saturated sum. */
  lemma MixedSampleHit(before: seq<int>, t: Track, position: int, master: real, i: int)
    requires t.sampleRate > 0 && t.channels > 0 && Audible(t, position) && 0 <= i < |before|
    requires 0 <= SampleOffset(t, position) + i < |t.samples|
    ensures MixedSample(before, t, position, master, i)
         == Saturate(before[i] + Scaled(t.samples[SampleOffset(t, position) + i], t.volume * master))
  {
  }

  lemma SaturateIsMaxMin(x: int)
    ensures Saturate(x) == Max(-32768, Min(32767, x))
  {
  }

  /** When the loop stops, every remaining sample is one the track does not reach. */
  lemma MixedPrefixDone(cur: seq<int>, before: seq<int>, t: Track, position: int, master: real, i: int)
    requires t.sampleRate > 0 && t.channels > 0 && Audible(t, position)
    requires MixedPrefix(cur, before, t, position, master, i)
    requires i == |cur| || SampleOffset(t, position) + i >= |t.samples|
    ensures cur == MixTrack(before, t, position, master)
  {
  }
}
