// AudioMixer (AudioMixer.kt): the list of tracks to mix, mixToFile's
// buffer sizing and track loop, mixTrackIntoBuffer with fades, pan and
// saturation, normalizeBuffer, and the bytes writeWavFile produces.
// Decoding is platform I/O: each track's decoded samples are an input.
// Float arithmetic is taken exactly (reals); Kotlin Int and Long arithmetic
// wraps explicitly where it can.
module AudioMixer {
  import opened Common

  const MixSampleRate: int := 44100
  const MixChannels: int := 2

  /** AudioMixer.AudioTrack. Times are milliseconds; volume and pan are floats. */
  datatype MixerTrack = MixerTrack(
    id: int,
    filePath: string,
    startTimeMs: int,
    volume: real,
    fadeInMs: int,
    fadeOutMs: int,
    isMuted: bool,
    pan: real)

  /** The track addTrack appends: given start, volume 1, no fades, unmuted, centred. */
  function NewTrack(id: int, filePath: string, startTimeMs: int): (t: MixerTrack)
    ensures t.id == id && t.startTimeMs == startTimeMs && t.volume == 1.0
    ensures t.fadeInMs == 0 && t.fadeOutMs == 0 && !t.isMuted && t.pan == 0.0
  {
    MixerTrack(id, filePath, startTimeMs, 1.0, 0, 0, false, 0.0)
  }

  // ---------------------------------------------------------------------
  // The track list
  // ---------------------------------------------------------------------

  /** tracks.find { it.id == trackId }: the index of the first track with that id. */
  function FindIndex(tracks: seq<MixerTrack>, trackId: int): (r: Option<nat>)
    ensures r.Some? ==> r.value < |tracks| && tracks[r.value].id == trackId
  {
    if tracks == [] then None
    else if tracks[0].id == trackId then Some(0)
    else match FindIndex(tracks[1..], trackId)
      case None => None
      case Some(k) => Some(k + 1)
  }

  /** find returns the first match, and nothing only when no track has the id. */
  lemma {:induction false} FindIndexFirst(tracks: seq<MixerTrack>, trackId: int)
    ensures FindIndex(tracks, trackId).None? <==> forall i :: 0 <= i < |tracks| ==> tracks[i].id != trackId
    ensures FindIndex(tracks, trackId).Some? ==>
      forall i :: 0 <= i < FindIndex(tracks, trackId).value ==> tracks[i].id != trackId
    decreases |tracks|
  {
    if tracks != [] && tracks[0].id != trackId {
      FindIndexFirst(tracks[1..], trackId);
      assert forall i :: 1 <= i < |tracks| ==> tracks[i] == tracks[1..][i - 1];
    }
  }

  /** tracks.removeAll { it.id == trackId }. */
  function Without(tracks: seq<MixerTrack>, trackId: int): (r: seq<MixerTrack>)
    ensures |r| <= |tracks|
  {
    if tracks == [] then []
    else (if tracks[0].id == trackId then [] else [tracks[0]]) + Without(tracks[1..], trackId)
  }

  /** removeAll keeps exactly the other tracks, in their order. */
  lemma {:induction false} WithoutKeepsOthers(tracks: seq<MixerTrack>, trackId: int)
    ensures forall t :: t in Without(tracks, trackId) <==> t in tracks && t.id != trackId
    ensures (forall i :: 0 <= i < |tracks| ==> tracks[i].id != trackId) ==> Without(tracks, trackId) == tracks
    decreases |tracks|
  {
    if tracks != [] {
      WithoutKeepsOthers(tracks[1..], trackId);
      assert tracks == [tracks[0]] + tracks[1..];
      assert forall i :: 1 <= i < |tracks| ==> tracks[i] == tracks[1..][i - 1];
    }
  }

  /** Ids are unique, positive and below the counter; volume and pan stay in their ranges. */
  ghost predicate ValidTracks(tracks: seq<MixerTrack>, nextTrackId: int)
  {
    nextTrackId >= 1
    && (forall t :: t in tracks ==> 1 <= t.id < nextTrackId && 0.0 <= t.volume <= 2.0 && -1.0 <= t.pan <= 1.0)
    && UniqueIds(tracks)
  }

  ghost predicate UniqueIds(tracks: seq<MixerTrack>)
  {
    forall i, j :: 0 <= i < j < |tracks| ==> tracks[i].id != tracks[j].id
  }

  /** A list with unique ids is its head followed by a tail with unique ids none of which is the head's. */
  lemma UniqueIdsCons(t: MixerTrack, rest: seq<MixerTrack>)
    ensures UniqueIds([t] + rest) <==> UniqueIds(rest) && forall u :: u in rest ==> u.id != t.id
  {
    var l := [t] + rest;
    assert forall i :: 0 <= i < |rest| ==> l[i + 1] == rest[i];
    if UniqueIds(rest) && forall u :: u in rest ==> u.id != t.id {
      forall i, j | 0 <= i < j < |l| ensures l[i].id != l[j].id {
        assert l[j] == rest[j - 1];
        if i > 0 {
          assert l[i] == rest[i - 1];
        }
      }
    }
    if UniqueIds(l) {
      forall u | u in rest ensures u.id != t.id {
        var k :| 0 <= k < |rest| && rest[k] == u;
        assert l[0] == t && l[k + 1] == u;
      }
    }
  }

  /** removeTrack keeps the list valid. */
  lemma {:induction false} WithoutValid(tracks: seq<MixerTrack>, nextTrackId: int, trackId: int)
    requires ValidTracks(tracks, nextTrackId)
    ensures ValidTracks(Without(tracks, trackId), nextTrackId)
    decreases |tracks|
  {
    WithoutKeepsOthers(tracks, trackId);
    WithoutUnique(tracks, trackId);
  }

  lemma {:induction false} WithoutUnique(tracks: seq<MixerTrack>, trackId: int)
    requires UniqueIds(tracks)
    ensures UniqueIds(Without(tracks, trackId))
    decreases |tracks|
  {
    if tracks != [] {
      var rest := tracks[1..];
      assert tracks == [tracks[0]] + rest;
      UniqueIdsCons(tracks[0], rest);
      WithoutUnique(rest, trackId);
      WithoutKeepsOthers(rest, trackId);
      if tracks[0].id != trackId {
        UniqueIdsCons(tracks[0], Without(rest, trackId));
      }
    }
  }

  // ---------------------------------------------------------------------
  // mixTrackIntoBuffer
  // ---------------------------------------------------------------------

  /** (startTimeMs * sampleRate / 1000).toInt() * 2: Long product and quotient, narrowed, doubled as Int. */
  function StartSample(startTimeMs: int, sampleRate: int): int
  {
    ToInt32(ToInt32(CDiv(ToInt64(startTimeMs * sampleRate), 1000)) * 2)
  }

  /** trackSamples.size / 2 * 1000L / sampleRate: the track's length in whole milliseconds. */
  function TrackDurationMs(n: nat, sampleRate: int): int
    requires sampleRate > 0
  {
    (n / 2) * 1000 / sampleRate
  }

  /** (i / 2) * 1000L / sampleRate: the time of pair p in whole milliseconds. */
  function PairTimeMs(p: nat, sampleRate: int): int
    requires sampleRate > 0
  {
    p * 1000 / sampleRate
  }

  /** The volume for a pair at timeMs: the track volume, scaled by the fade-in and then the fade-out ramp. */
  function FadedVolume(t: MixerTrack, timeMs: int, durationMs: int): real
  {
    var v := t.volume;
    var v1 := if t.fadeInMs > 0 && timeMs < t.fadeInMs then v * (timeMs as real / t.fadeInMs as real) else v;
    var fromEnd := durationMs - timeMs;
    if t.fadeOutMs > 0 && fromEnd < t.fadeOutMs then v1 * (fromEnd as real / t.fadeOutMs as real) else v1
  }

  function LeftGain(volume: real, pan: real): real
  {
    volume * (1.0 - (if pan > 0.0 then pan else 0.0))
  }

  function RightGain(volume: real, pan: real): real
  {
    volume * (1.0 + (if pan < 0.0 then pan else 0.0))
  }

  /** The gain applied to track sample i: left for even i, right for odd i. */
  function SampleGain(t: MixerTrack, n: nat, sampleRate: int, i: nat): real
    requires sampleRate > 0
  {
    var volume := FadedVolume(t, PairTimeMs(i / 2, sampleRate), TrackDurationMs(n, sampleRate));
    if i % 2 == 0 then LeftGain(volume, t.pan) else RightGain(volume, t.pan)
  }

  /** (sample * gain).toInt(): truncated toward zero. */
  function Scaled(sample: int, gain: real): int
  {
    Trunc(sample as real * gain)
  }

  /**
   * mixTrackIntoBuffer throws: the first pair lands at a negative index, or
   * an odd-length track's last pair is reached and its right sample read.
   */
  predicate MixThrows(outLen: int, n: int, start: int)
  {
    n > 0 && start < outLen - 1 && (start < 0 || (n % 2 == 1 && start + n - 1 < outLen - 1))
  }

  /** Output sample j after mixing: track sample j - start, if its pair starts before the last output index. */
  function MixedAt(out: seq<int>, samples: seq<int>, t: MixerTrack, sampleRate: int, j: int): int
    requires 0 <= j < |out| && sampleRate > 0
  {
    var start := StartSample(t.startTimeMs, sampleRate);
    var i := j - start;
    if 0 <= i < |samples| && start + (i - i % 2) < |out| - 1
    then Saturate(out[j] + Scaled(samples[i], SampleGain(t, |samples|, sampleRate, i)))
    else out[j]
  }

  /** The buffer after mixTrackIntoBuffer returns normally. */
  function MixedInto(out: seq<int>, samples: seq<int>, t: MixerTrack, sampleRate: int): (r: seq<int>)
    requires sampleRate > 0
    ensures |r| == |out|
  {
    seq(|out|, j requires 0 <= j < |out| => MixedAt(out, samples, t, sampleRate, j))
  }

  // ---------------------------------------------------------------------
  // mixTrackIntoBuffer: properties
  // ---------------------------------------------------------------------

  /** Neither channel's gain exceeds the faded volume, for a pan in [-1, 1]. */
  lemma PanGains(volume: real, pan: real)
    requires volume >= 0.0 && -1.0 <= pan <= 1.0
    ensures 0.0 <= LeftGain(volume, pan) <= volume && 0.0 <= RightGain(volume, pan) <= volume
    ensures pan == 0.0 ==> LeftGain(volume, pan) == volume == RightGain(volume, pan)
  {
    var l := 1.0 - (if pan > 0.0 then pan else 0.0);
    var r := 1.0 + (if pan < 0.0 then pan else 0.0);
    assert 0.0 <= l <= 1.0 && 0.0 <= r <= 1.0;
    assert volume * l <= volume * 1.0;
    assert volume * r <= volume * 1.0;
  }

  /**
   * The fade-in ramp is silent at the first pair, and the ramps only ever
   * scale the volume down: with no fades the volume is the track's own.
   */
  lemma {:induction false} FadeRamps(t: MixerTrack, timeMs: int, durationMs: int)
    requires t.volume >= 0.0 && 0 <= timeMs <= durationMs
    ensures 0.0 <= FadedVolume(t, timeMs, durationMs) <= t.volume
    ensures t.fadeInMs > 0 && timeMs == 0 ==> FadedVolume(t, timeMs, durationMs) == 0.0
    ensures t.fadeInMs <= 0 && t.fadeOutMs <= 0 ==> FadedVolume(t, timeMs, durationMs) == t.volume
    ensures timeMs >= t.fadeInMs && durationMs - timeMs >= t.fadeOutMs ==> FadedVolume(t, timeMs, durationMs) == t.volume
  {
    var v := t.volume;
    if t.fadeInMs > 0 && timeMs < t.fadeInMs {
      RampBelowOne(v, timeMs, t.fadeInMs);
    }
    var v1 := if t.fadeInMs > 0 && timeMs < t.fadeInMs then v * (timeMs as real / t.fadeInMs as real) else v;
    var fromEnd := durationMs - timeMs;
    if t.fadeOutMs > 0 && fromEnd < t.fadeOutMs {
      RampBelowOne(v1, fromEnd, t.fadeOutMs);
    }
  }

  lemma RampBelowOne(v: real, a: int, b: int)
    requires v >= 0.0 && 0 <= a < b
    ensures 0.0 <= v * (a as real / b as real) <= v
  {
    var q := a as real / b as real;
    assert 0.0 <= q <= 1.0;
    assert v * q <= v * 1.0;
  }

  /** The pairs the track reaches are the ones the time step visits: every pair's time lies within the track. */
  lemma PairTimeWithin(n: nat, sampleRate: int, i: nat)
    requires sampleRate > 0 && i < n
    ensures 0 <= PairTimeMs(i / 2, sampleRate) <= TrackDurationMs(n, sampleRate)
  {
    assert i / 2 <= n / 2;
    MulMonotone(i / 2, n / 2, 1000);
    DivMonotone((i / 2) * 1000, (n / 2) * 1000, sampleRate);
  }

  lemma {:induction false} MulMonotone(a: int, b: int, c: nat)
    requires 0 <= a
    ensures 0 <= a * c && (a <= b ==> a * c <= b * c)
    decreases c
  {
    if c > 0 {
      MulMonotone(a, b, c - 1);
      assert a * c == a * (c - 1) + a && b * c == b * (c - 1) + b;
    }
  }

  lemma DivMonotone(a: int, b: int, d: int)
    requires 0 <= a <= b && d > 0
    ensures 0 <= a / d <= b / d
  {
    var qa, qb := a / d, b / d;
    assert a == qa * d + a % d && b == qb * d + b % d;
    IntMulLe(qb + 1, qa, d);
    IntMulLe(qa, -1, d);
    assert (qb + 1) * d == qb * d + d && -1 * d == -d;
  }

  /** Mixing keeps 16-bit samples and touches only indices from the start sample to the track's end. */
  lemma {:induction false} MixedIntoProperties(out: seq<int>, samples: seq<int>, t: MixerTrack, sampleRate: int)
    requires sampleRate > 0
    ensures var r := MixedInto(out, samples, t, sampleRate);
      ((forall j :: 0 <= j < |out| ==> IsShort(out[j])) ==> forall j :: 0 <= j < |out| ==> IsShort(r[j]))
      && forall j :: 0 <= j < |out| && !(0 <= j - StartSample(t.startTimeMs, sampleRate) < |samples|) ==> r[j] == out[j]
  {
    var r := MixedInto(out, samples, t, sampleRate);
    forall j | 0 <= j < |out| ensures r[j] == MixedAt(out, samples, t, sampleRate, j) {
    }
  }

  /**
   * For a track in range (volume in [0, 2], pan in [-1, 1]) the gain on any
   * sample lies between 0 and the track volume: fades and pan only attenuate.
   */
  lemma SampleGainBounded(t: MixerTrack, n: nat, sampleRate: int, i: nat)
    requires sampleRate > 0 && i < n && t.volume >= 0.0 && -1.0 <= t.pan <= 1.0
    ensures 0.0 <= SampleGain(t, n, sampleRate, i) <= t.volume
  {
    var time, duration := PairTimeMs(i / 2, sampleRate), TrackDurationMs(n, sampleRate);
    PairTimeWithin(n, sampleRate, i);
    FadeRamps(t, time, duration);
    var volume := FadedVolume(t, time, duration);
    PanGains(volume, t.pan);
    assert SampleGain(t, n, sampleRate, i) == if i % 2 == 0 then LeftGain(volume, t.pan) else RightGain(volume, t.pan);
  }

  /** A track starting at 0 ms starts at output index 0. */
  lemma StartAtZero(sampleRate: int)
    ensures StartSample(0, sampleRate) == 0
  {
    var product := 0 * sampleRate;
    assert ToInt64(product) == 0;
    var ms := CDiv(0, 1000);
    assert ms == 0;
    assert ToInt32(ms) * 2 == 0;
  }

  /** Mixing a short sample at unit gain into 0 gives the sample. */
  lemma UnitGainCopies(s: int)
    requires IsShort(s)
    ensures Saturate(0 + Scaled(s, LeftGain(1.0, 0.0))) == s
    ensures Saturate(0 + Scaled(s, RightGain(1.0, 0.0))) == s
  {
    assert LeftGain(1.0, 0.0) == 1.0 && RightGain(1.0, 0.0) == 1.0;
    assert s as real * 1.0 == s as real;
    assert Trunc(s as real) == s;
  }

  /**
   * A track at volume 1, centred, without fades and starting at 0, mixed
   * into silence, reproduces the samples it covers and leaves the rest 0.
   */
  lemma {:induction false} MixedIntoCopies(n: nat, samples: seq<int>, t: MixerTrack, sampleRate: int)
    requires sampleRate > 0 && n % 2 == 0
    requires t.volume == 1.0 && t.pan == 0.0 && t.fadeInMs == 0 && t.fadeOutMs == 0 && t.startTimeMs == 0
    requires forall i :: 0 <= i < |samples| ==> IsShort(samples[i])
    ensures var r := MixedInto(seq(n, _ => 0), samples, t, sampleRate);
      forall j :: 0 <= j < n ==> r[j] == if j < |samples| then samples[j] else 0
  {
    var out := seq(n, _ => 0);
    var r := MixedInto(out, samples, t, sampleRate);
    forall j | 0 <= j < n ensures r[j] == if j < |samples| then samples[j] else 0 {
      assert r[j] == MixedAt(out, samples, t, sampleRate, j);
      CopyAt(out, samples, t, sampleRate, j);
    }
  }

  lemma CopyAt(out: seq<int>, samples: seq<int>, t: MixerTrack, sampleRate: int, j: int)
    requires sampleRate > 0 && |out| % 2 == 0 && 0 <= j < |out| && out[j] == 0
    requires t.volume == 1.0 && t.pan == 0.0 && t.fadeInMs == 0 && t.fadeOutMs == 0 && t.startTimeMs == 0
    requires forall i :: 0 <= i < |samples| ==> IsShort(samples[i])
    ensures MixedAt(out, samples, t, sampleRate, j) == if j < |samples| then samples[j] else 0
  {
    StartAtZero(sampleRate);
    if j < |samples| {
      assert j - j % 2 < |out| - 1;
      var v := FadedVolume(t, PairTimeMs(j / 2, sampleRate), TrackDurationMs(|samples|, sampleRate));
      assert v == 1.0;
      assert SampleGain(t, |samples|, sampleRate, j) == if j % 2 == 0 then LeftGain(1.0, 0.0) else RightGain(1.0, 0.0);
      UnitGainCopies(samples[j]);
    }
  }

  // ---------------------------------------------------------------------
  // normalizeBuffer
  // ---------------------------------------------------------------------

  /** The largest |sample| among the first n, starting from 1. */
  function MaxAbs(buf: seq<int>, n: nat): (m: int)
    requires n <= |buf|
    ensures m >= 1
  {
    if n == 0 then 1 else Max(MaxAbs(buf, n - 1), Abs(buf[n - 1]))
  }

  lemma {:induction false} MaxAbsBounds(buf: seq<int>, n: nat)
    requires n <= |buf|
    ensures forall i :: 0 <= i < n ==> Abs(buf[i]) <= MaxAbs(buf, n)
    ensures MaxAbs(buf, n) == 1 || exists i :: 0 <= i < n && Abs(buf[i]) == MaxAbs(buf, n)
  {
    if n > 0 {
      MaxAbsBounds(buf, n - 1);
    }
  }

  /** normalizeBuffer: when the peak exceeds 32767, every sample is scaled by 32767 / peak. */
  function Normalized(buf: seq<int>): (r: seq<int>)
    ensures |r| == |buf|
  {
    var peak := MaxAbs(buf, |buf|);
    if peak > ShortMax then Rescaled(buf, ShortMax as real / peak as real) else buf
  }

  /** Every sample times scale, truncated and narrowed to a short. */
  function Rescaled(buf: seq<int>, scale: real): (r: seq<int>)
    ensures |r| == |buf|
  {
    seq(|buf|, i requires 0 <= i < |buf| => RescaledSample(buf[i], scale))
  }

  /** (sample * scale).toInt().toShort(). */
  function RescaledSample(sample: int, scale: real): int
  {
    ToShort(Trunc(sample as real * scale))
  }

  /**
   * On 16-bit input, normalizeBuffer rescales only if some sample is
   * -32768, never increases any |sample|, and leaves every |sample| at
   * most 32767.
   */
  lemma {:induction false} NormalizedProperties(buf: seq<int>)
    requires forall i :: 0 <= i < |buf| ==> IsShort(buf[i])
    ensures var r := Normalized(buf);
      (forall i :: 0 <= i < |buf| ==> Abs(r[i]) <= Abs(buf[i]) && Abs(r[i]) <= ShortMax)
      && ((forall i :: 0 <= i < |buf| ==> buf[i] != ShortMin) ==> r == buf)
  {
    MaxAbsBounds(buf, |buf|);
    var peak := MaxAbs(buf, |buf|);
    if peak > ShortMax {
      var k :| 0 <= k < |buf| && Abs(buf[k]) == peak;
      assert buf[k] == ShortMin;
      RescaledDown(buf, peak);
    }
  }

  /** With a peak of 32768 every rescaled sample moves toward 0 and fits in [-32767, 32767]. */
  lemma RescaledDown(buf: seq<int>, peak: int)
    requires forall i :: 0 <= i < |buf| ==> IsShort(buf[i])
    requires peak == 32768
    ensures var r := Rescaled(buf, ShortMax as real / peak as real);
      forall i :: 0 <= i < |buf| ==> Abs(r[i]) <= Abs(buf[i]) && Abs(r[i]) <= ShortMax
  {
    var r := Rescaled(buf, ShortMax as real / peak as real);
    assert ShortMax as real / peak as real == 32767.0 / 32768.0;
    forall i | 0 <= i < |buf| ensures Abs(r[i]) <= Abs(buf[i]) && Abs(r[i]) <= ShortMax {
      ScaleDown(buf[i]);
    }
  }

  /** Scaling a 16-bit sample by 32767 / 32768 and truncating moves it toward 0 and into [-32767, 32767]. */
  lemma ScaleDown(s: int)
    requires IsShort(s)
    ensures var v := Trunc(s as real * (32767.0 / 32768.0)); Abs(v) <= Abs(s) && Abs(v) <= 32767 && ToShort(v) == v
  {
    var x := s as real * (32767.0 / 32768.0);
    if s >= 0 {
      assert 0.0 <= x <= s as real;
      assert x <= 32767.0;
    } else {
      assert s as real <= x <= 0.0;
      assert x >= -32767.0;
    }
  }

  /** normalizeBuffer: a peak scan, then the rescale when the peak is above 32767. */
  method NormalizeBuffer(buffer: array<int>)
    modifies buffer
    ensures buffer[..] == Normalized(old(buffer[..]))
  {
    ghost var before := buffer[..];
    var maxSample := PeakOf(buffer);
    assert maxSample == MaxAbs(before, |before|);
    if maxSample > ShortMax {
      var scale := ShortMax as real / maxSample as real;
      Rescale(buffer, scale);
    }
  }

  /** The first loop of normalizeBuffer: the largest |sample|, at least 1. */
  method PeakOf(buffer: array<int>) returns (maxSample: int)
    ensures maxSample == MaxAbs(buffer[..], buffer.Length)
  {
    maxSample := 1;
    var k := 0;
    while k < buffer.Length
      invariant 0 <= k <= buffer.Length && maxSample == MaxAbs(buffer[..], k)
    {
      var abs := Abs(buffer[k]);
      if abs > maxSample {
        maxSample := abs;
      }
      k := k + 1;
    }
  }

  /** The second loop of normalizeBuffer: (buffer[i] * scale).toInt().toShort(). */
  method Rescale(buffer: array<int>, scale: real)
    modifies buffer
    ensures buffer[..] == Rescaled(old(buffer[..]), scale)
  {
    ghost var before := buffer[..];
    var i := 0;
    while i < buffer.Length
      invariant 0 <= i <= buffer.Length
      invariant forall j :: 0 <= j < i ==> buffer[j] == Rescaled(before, scale)[j]
      invariant forall j :: i <= j < buffer.Length ==> buffer[j] == before[j]
    {
      buffer[i] := RescaledSample(buffer[i], scale);
      i := i + 1;
    }
    assert buffer[..] == Rescaled(before, scale);
  }

  // ---------------------------------------------------------------------
  // writeWavFile
  // ---------------------------------------------------------------------

  /** The n little-endian bytes of v modulo 256^n (ByteBuffer.putInt / putShort in LITTLE_ENDIAN). */
  function LeBytes(v: int, n: nat): (r: seq<int>)
    ensures |r| == n && forall i :: 0 <= i < n ==> IsByte(r[i])
    decreases n
  {
    if n == 0 then [] else [v % 256] + LeBytes(v / 256, n - 1)
  }

  /** The unsigned value of little-endian bytes. */
  function LeValue(bytes: seq<int>): int
  {
    if bytes == [] then 0 else bytes[0] + 256 * LeValue(bytes[1..])
  }

  function Pow256(n: nat): (r: int)
    ensures r > 0
  {
    if n == 0 then 1 else 256 * Pow256(n - 1)
  }

  /** Reading the bytes back gives v modulo 256^n. */
  lemma {:induction false} LeRoundTrip(v: int, n: nat)
    ensures LeValue(LeBytes(v, n)) == v % Pow256(n)
    decreases n
  {
    if n > 0 {
      LeRoundTrip(v / 256, n - 1);
      var rest := LeBytes(v / 256, n - 1);
      assert LeBytes(v, n)[1..] == rest;
      ModSplit(v, Pow256(n - 1));
    }
  }

  /** v mod 256p == v mod 256 + 256 * ((v / 256) mod p). */
  lemma ModSplit(v: int, p: int)
    requires p > 0
    ensures v % (256 * p) == v % 256 + 256 * ((v / 256) % p)
  {
    var q := (v / 256) / p;
    var r := v % 256 + 256 * ((v / 256) % p);
    assert v == 256 * (v / 256) + v % 256;
    assert v / 256 == p * q + (v / 256) % p;
    assert v == (256 * p) * q + r;
    DivModUnique(v, 256 * p, q, r);
  }

  /** Bytes 0..3 of a Java int, little-endian. */
  function IntToBytes(v: int): seq<int> { LeBytes(v, 4) }

  /** Bytes 0..1 of a Java short, little-endian. */
  function ShortToBytes(v: int): seq<int> { LeBytes(v, 2) }

  /** A little-endian 16-bit field read back as a signed short. */
  function ReadShort(bytes: seq<int>): int
  {
    var u := LeValue(bytes);
    if u >= 32768 then u - 65536 else u
  }

  /** A 16-bit sample survives its two bytes. */
  lemma ShortRoundTrip(s: int)
    requires IsShort(s)
    ensures ReadShort(ShortToBytes(s)) == s
  {
    LeRoundTrip(s, 2);
    assert Pow256(2) == 65536;
  }

  function Ascii(s: string): seq<int>
  {
    seq(|s|, i requires 0 <= i < |s| => s[i] as int)
  }

  /** The samples as consecutive little-endian 16-bit values. */
  function SampleBytes(samples: seq<int>): (r: seq<int>)
    ensures |r| == 2 * |samples|
  {
    if samples == [] then [] else SampleBytes(samples[..|samples| - 1]) + ShortToBytes(samples[|samples| - 1])
  }

  /** "RIFF", the RIFF chunk size fileSize - 8, "WAVE". */
  function RiffChunk(n: int): (c: seq<int>)
    ensures |c| == 12
  {
    Ascii("RIFF") + IntToBytes(44 + n * 2 - 8) + Ascii("WAVE")
  }

  /** The "fmt " sub-chunk: size 16, PCM, channels, rate, byte rate, block align, 16 bits. */
  function FmtChunk(sampleRate: int, channels: int): (c: seq<int>)
    ensures |c| == 24
  {
    Ascii("fmt ") + IntToBytes(16) + ShortToBytes(1) + ShortToBytes(ToShort(channels))
    + IntToBytes(sampleRate) + IntToBytes(ByteRate(sampleRate, channels))
    + ShortToBytes(ToShort(channels * 2)) + ShortToBytes(16)
  }

  /** sampleRate * channels * bytesPerSample, in Int arithmetic (the bytes keep it modulo 2^32). */
  function ByteRate(sampleRate: int, channels: int): int
  {
    sampleRate * channels * 2
  }

  /** "data" and the data size. */
  function DataChunkHeader(n: int): (c: seq<int>)
    ensures |c| == 8
  {
    Ascii("data") + IntToBytes(n * 2)
  }

  /** The 44-byte canonical PCM header for n 16-bit samples. */
  function WavHeader(n: int, sampleRate: int, channels: int): (h: seq<int>)
    ensures |h| == 44
  {
    RiffChunk(n) + FmtChunk(sampleRate, channels) + DataChunkHeader(n)
  }

  /** writeWavFile: the file's contents. */
  function WavFile(samples: seq<int>, sampleRate: int, channels: int): (f: seq<int>)
    ensures |f| == 44 + 2 * |samples|
  {
    WavHeader(|samples|, sampleRate, channels) + SampleBytes(samples)
  }

  /** The field of width bytes at offset, read as an unsigned little-endian value. */
  function Field(f: seq<int>, offset: nat, width: nat): int
    requires offset + width <= |f|
  {
    LeValue(f[offset..offset + width])
  }

  lemma Pow256Values()
    ensures Pow256(2) == 65536 && Pow256(4) == 0x1_0000_0000
  {
    assert Pow256(1) == 256;
    assert Pow256(3) == 256 * 65536;
  }

  lemma RiffFields(n: int)
    ensures var c := RiffChunk(n);
      c[0..4] == Ascii("RIFF") && Field(c, 4, 4) == (36 + 2 * n) % 0x1_0000_0000 && c[8..12] == Ascii("WAVE")
  {
    var c := RiffChunk(n);
    Pow256Values();
    LeRoundTrip(44 + n * 2 - 8, 4);
    assert c[4..8] == IntToBytes(44 + n * 2 - 8);
  }

  /** Bytes of a value that fits read back as the value itself. */
  lemma LeSmall(v: int, n: nat)
    requires 0 <= v < Pow256(n)
    ensures LeValue(LeBytes(v, n)) == v
  {
    LeRoundTrip(v, n);
  }

  lemma FmtFields(sampleRate: int, channels: int)
    requires 1 <= channels <= 16383
    ensures var c := FmtChunk(sampleRate, channels);
      c[0..4] == Ascii("fmt ") && Field(c, 4, 4) == 16 && Field(c, 8, 2) == 1
      && Field(c, 10, 2) == channels
      && Field(c, 12, 4) == sampleRate % 0x1_0000_0000
      && Field(c, 16, 4) == ByteRate(sampleRate, channels) % 0x1_0000_0000
      && Field(c, 20, 2) == channels * 2
      && Field(c, 22, 2) == 16
  {
    var c := FmtChunk(sampleRate, channels);
    Pow256Values();
    var c1, c2 := c[..12], c[12..];
    assert c1 == Ascii("fmt ") + IntToBytes(16) + ShortToBytes(1) + ShortToBytes(channels);
    assert c2 == IntToBytes(sampleRate) + IntToBytes(ByteRate(sampleRate, channels)) + ShortToBytes(channels * 2) + ShortToBytes(16);
    FmtFormatFields(c1, channels);
    FmtRateFields(c2, sampleRate, channels);
    assert c[4..8] == c1[4..8] && c[8..10] == c1[8..10] && c[10..12] == c1[10..12];
    assert c[12..16] == c2[0..4] && c[16..20] == c2[4..8] && c[20..22] == c2[8..10] && c[22..24] == c2[10..12];
  }

  lemma FmtFormatFields(c1: seq<int>, channels: int)
    requires 1 <= channels <= 16383
    requires c1 == Ascii("fmt ") + IntToBytes(16) + ShortToBytes(1) + ShortToBytes(channels)
    ensures c1[0..4] == Ascii("fmt ") && LeValue(c1[4..8]) == 16 && LeValue(c1[8..10]) == 1 && LeValue(c1[10..12]) == channels
  {
    Pow256Values();
    LeSmall(16, 4);
    LeSmall(1, 2);
    LeSmall(channels, 2);
    assert c1[4..8] == IntToBytes(16);
    assert c1[8..10] == ShortToBytes(1);
    assert c1[10..12] == ShortToBytes(channels);
  }

  lemma FmtRateFields(c2: seq<int>, sampleRate: int, channels: int)
    requires 1 <= channels <= 16383
    requires c2 == IntToBytes(sampleRate) + IntToBytes(ByteRate(sampleRate, channels)) + ShortToBytes(channels * 2) + ShortToBytes(16)
    ensures LeValue(c2[0..4]) == sampleRate % 0x1_0000_0000
    ensures LeValue(c2[4..8]) == ByteRate(sampleRate, channels) % 0x1_0000_0000
    ensures LeValue(c2[8..10]) == channels * 2 && LeValue(c2[10..12]) == 16
  {
    Pow256Values();
    LeRoundTrip(sampleRate, 4);
    LeRoundTrip(ByteRate(sampleRate, channels), 4);
    LeSmall(channels * 2, 2);
    LeSmall(16, 2);
    assert c2[0..4] == IntToBytes(sampleRate);
    assert c2[4..8] == IntToBytes(ByteRate(sampleRate, channels));
    assert c2[8..10] == ShortToBytes(channels * 2);
    assert c2[10..12] == ShortToBytes(16);
  }

  lemma DataFields(n: int)
    ensures var c := DataChunkHeader(n);
      c[0..4] == Ascii("data") && Field(c, 4, 4) == (2 * n) % 0x1_0000_0000
  {
    var c := DataChunkHeader(n);
    Pow256Values();
    LeRoundTrip(n * 2, 4);
    assert c[4..8] == IntToBytes(n * 2);
  }

  /**
   * The header's fields read back: the chunk tags, a RIFF size of 36 + 2n
   * and a data size of 2n (modulo 2^32), PCM format 1, the channel count,
   * the rate, byte rate rate * channels * 2, block align channels * 2 and
   * 16 bits per sample.
   */
  lemma {:induction false} WavHeaderFields(samples: seq<int>, sampleRate: int, channels: int)
    requires 1 <= channels <= 16383
    ensures var f := WavFile(samples, sampleRate, channels); var n := |samples|;
      f[0..4] == Ascii("RIFF") && Field(f, 4, 4) == (36 + 2 * n) % 0x1_0000_0000
      && f[8..12] == Ascii("WAVE") && f[12..16] == Ascii("fmt ")
      && Field(f, 16, 4) == 16 && Field(f, 20, 2) == 1
      && Field(f, 22, 2) == channels
      && Field(f, 24, 4) == sampleRate % 0x1_0000_0000
      && Field(f, 28, 4) == ByteRate(sampleRate, channels) % 0x1_0000_0000
      && Field(f, 32, 2) == channels * 2
      && Field(f, 34, 2) == 16
      && f[36..40] == Ascii("data") && Field(f, 40, 4) == (2 * n) % 0x1_0000_0000
  {
    WavRiffFields(samples, sampleRate, channels);
    WavFmtFields(samples, sampleRate, channels);
    WavDataFields(samples, sampleRate, channels);
  }

  lemma WavRiffFields(samples: seq<int>, sampleRate: int, channels: int)
    ensures var f := WavFile(samples, sampleRate, channels);
      f[0..4] == Ascii("RIFF") && Field(f, 4, 4) == (36 + 2 * |samples|) % 0x1_0000_0000 && f[8..12] == Ascii("WAVE")
  {
    var f := WavFile(samples, sampleRate, channels);
    var riff := RiffChunk(|samples|);
    assert f[0..12] == riff;
    RiffFields(|samples|);
    assert f[0..4] == riff[0..4] && f[4..8] == riff[4..8] && f[8..12] == riff[8..12];
  }

  lemma WavFmtFields(samples: seq<int>, sampleRate: int, channels: int)
    requires 1 <= channels <= 16383
    ensures var f := WavFile(samples, sampleRate, channels);
      f[12..16] == Ascii("fmt ")
      && Field(f, 16, 4) == 16 && Field(f, 20, 2) == 1
      && Field(f, 22, 2) == channels
      && Field(f, 24, 4) == sampleRate % 0x1_0000_0000
      && Field(f, 28, 4) == ByteRate(sampleRate, channels) % 0x1_0000_0000
      && Field(f, 32, 2) == channels * 2
      && Field(f, 34, 2) == 16
  {
    var f := WavFile(samples, sampleRate, channels);
    var fmt := FmtChunk(sampleRate, channels);
    assert f[12..36] == fmt;
    FmtFields(sampleRate, channels);
    assert f[12..16] == fmt[0..4];
    FieldWithin(f, 12, fmt, 4, 4);
    FieldWithin(f, 12, fmt, 8, 2);
    FieldWithin(f, 12, fmt, 10, 2);
    FieldWithin(f, 12, fmt, 12, 4);
    FieldWithin(f, 12, fmt, 16, 4);
    FieldWithin(f, 12, fmt, 20, 2);
    FieldWithin(f, 12, fmt, 22, 2);
  }

  /** A field of a chunk placed at base in f is the field at base + offset of f. */
  lemma FieldWithin(f: seq<int>, base: nat, c: seq<int>, offset: nat, width: nat)
    requires base + |c| <= |f| && f[base..base + |c|] == c && offset + width <= |c|
    ensures Field(f, base + offset, width) == Field(c, offset, width)
  {
    var a, b := f[base + offset..base + offset + width], c[offset..offset + width];
    forall k | 0 <= k < width ensures a[k] == b[k] {
      assert a[k] == f[base + offset + k] && b[k] == c[offset + k];
      assert f[base..base + |c|][offset + k] == f[base + offset + k];
    }
    assert a == b;
  }

  lemma WavDataFields(samples: seq<int>, sampleRate: int, channels: int)
    ensures var f := WavFile(samples, sampleRate, channels);
      f[36..40] == Ascii("data") && Field(f, 40, 4) == (2 * |samples|) % 0x1_0000_0000
  {
    var f := WavFile(samples, sampleRate, channels);
    var data := DataChunkHeader(|samples|);
    assert f[36..44] == data;
    DataFields(|samples|);
    assert f[36..40] == data[0..4] && f[40..44] == data[4..8];
  }

  /** The samples follow the header, each one readable back from its two bytes. */
  lemma {:induction false} WavSamples(samples: seq<int>, sampleRate: int, channels: int, i: int)
    requires 0 <= i < |samples| && IsShort(samples[i])
    ensures ReadShort(WavFile(samples, sampleRate, channels)[44 + 2 * i..46 + 2 * i]) == samples[i]
  {
    SampleBytesAt(samples, i);
    var f := WavFile(samples, sampleRate, channels);
    assert f[44 + 2 * i..46 + 2 * i] == SampleBytes(samples)[2 * i..2 * i + 2];
    ShortRoundTrip(samples[i]);
  }

  lemma {:induction false} SampleBytesAt(samples: seq<int>, i: int)
    requires 0 <= i < |samples|
    ensures SampleBytes(samples)[2 * i..2 * i + 2] == ShortToBytes(samples[i])
    decreases |samples|
  {
    var init := samples[..|samples| - 1];
    if i < |samples| - 1 {
      SampleBytesAt(init, i);
      assert init[i] == samples[i];
      assert SampleBytes(samples)[2 * i..2 * i + 2] == SampleBytes(init)[2 * i..2 * i + 2];
    }
  }

  /** The first 2k bytes of buffer hold the first k samples. */
  ghost predicate BytesSoFar(buffer: seq<int>, samples: seq<int>, k: int) {
    |buffer| == 2 * |samples| && 0 <= k <= |samples| && buffer[..2 * k] == SampleBytes(samples[..k])
  }

  /** Writing sample k's two bytes at 2k and 2k + 1 extends the written prefix by one sample. */
  lemma BytesStep(buffer: seq<int>, samples: seq<int>, k: int, b0: int, b1: int)
    requires BytesSoFar(buffer, samples, k) && k < |samples| && ShortToBytes(samples[k]) == [b0, b1]
    ensures BytesSoFar(buffer[2 * k := b0][2 * k + 1 := b1], samples, k + 1)
  {
    var next := buffer[2 * k := b0][2 * k + 1 := b1];
    assert samples[..k + 1][..k] == samples[..k];
    assert next[..2 * k + 2] == buffer[..2 * k] + [b0, b1];
  }

  /** The sample loop of writeWavFile: putShort for each sample into a LITTLE_ENDIAN buffer. */
  method SampleBuffer(samples: seq<int>) returns (buffer: array<int>)
    ensures fresh(buffer) && buffer[..] == SampleBytes(samples)
  {
    buffer := new int[|samples| * 2];
    var k := 0;
    while k < |samples|
      invariant 0 <= k <= |samples|
      invariant BytesSoFar(buffer[..], samples, k)
    {
      var b := ShortToBytes(samples[k]);
      BytesStep(buffer[..], samples, k, b[0], b[1]);
      buffer[2 * k] := b[0];
      buffer[2 * k + 1] := b[1];
      k := k + 1;
    }
    assert samples[..|samples|] == samples;
    assert buffer[..] == buffer[..2 * |samples|];
  }

  // ---------------------------------------------------------------------
  // mixToFile
  // ---------------------------------------------------------------------

  /** ShortArray(totalSamples * channels), totalSamples = (durationMs * 44100 / 1000).toInt(). */
  function BufferLength(durationMs: int): int
  {
    ToInt32(ToInt32(CDiv(ToInt64(durationMs * MixSampleRate), 1000)) * MixChannels)
  }

  /**
   * The mix buffer after the tracks before index k: muted tracks and
   * tracks whose decode failed are skipped; None once a track throws.
   */
  function MixTracks(buf: seq<int>, tracks: seq<MixerTrack>, decoded: seq<Option<seq<int>>>, k: nat): Option<seq<int>>
    requires k <= |tracks| == |decoded|
  {
    if k == 0 then Some(buf)
    else match MixTracks(buf, tracks, decoded, k - 1)
      case None => None
      case Some(b) =>
        var t := tracks[k - 1];
        if t.isMuted || decoded[k - 1].None? then Some(b)
        else
          var samples := decoded[k - 1].value;
          if MixThrows(|b|, |samples|, StartSample(t.startTimeMs, MixSampleRate)) then None
          else Some(MixedInto(b, samples, t, MixSampleRate))
  }

  /** mixToFile: the WAV file written, or None when it returns false. */
  function MixedFile(tracks: seq<MixerTrack>, decoded: seq<Option<seq<int>>>, durationMs: int): Option<seq<int>>
    requires |tracks| == |decoded|
  {
    var len := BufferLength(durationMs);
    if len < 0 then None
    else match MixTracks(seq(len, _ => 0), tracks, decoded, |tracks|)
      case None => None
      case Some(b) => Some(WavFile(Normalized(b), MixSampleRate, MixChannels))
  }

  /** A negative buffer size fails before any track is read; otherwise the file holds one sample per slot. */
  lemma {:induction false} MixedFileShape(tracks: seq<MixerTrack>, decoded: seq<Option<seq<int>>>, durationMs: int)
    requires |tracks| == |decoded|
    ensures BufferLength(durationMs) < 0 ==> MixedFile(tracks, decoded, durationMs).None?
    ensures MixedFile(tracks, decoded, durationMs).Some? ==>
      |MixedFile(tracks, decoded, durationMs).value| == 44 + 2 * BufferLength(durationMs)
  {
    var len := BufferLength(durationMs);
    if len >= 0 {
      MixTracksLength(seq(len, _ => 0), tracks, decoded, |tracks|);
    }
  }

  lemma {:induction false} MixTracksLength(buf: seq<int>, tracks: seq<MixerTrack>, decoded: seq<Option<seq<int>>>, k: nat)
    requires k <= |tracks| == |decoded|
    ensures MixTracks(buf, tracks, decoded, k).Some? ==> |MixTracks(buf, tracks, decoded, k).value| == |buf|
  {
    if k > 0 {
      MixTracksLength(buf, tracks, decoded, k - 1);
    }
  }

  /** With every track muted the mix is silent, whatever the decoder returns. */
  lemma {:induction false} AllMutedIsSilent(tracks: seq<MixerTrack>, decoded: seq<Option<seq<int>>>, k: nat, buf: seq<int>)
    requires k <= |tracks| == |decoded|
    requires forall i :: 0 <= i < |tracks| ==> tracks[i].isMuted
    ensures MixTracks(buf, tracks, decoded, k) == Some(buf)
  {
    if k > 0 {
      AllMutedIsSilent(tracks, decoded, k - 1, buf);
    }
  }

  // ---------------------------------------------------------------------
  // The AudioMixer object
  // ---------------------------------------------------------------------

  class AudioMixer {
    var tracks: seq<MixerTrack>
    var nextTrackId: int

    ghost predicate Valid()
      reads this
    {
      ValidTracks(tracks, nextTrackId)
    }

    constructor ()
      ensures Valid() && tracks == [] && nextTrackId == 1
    {
      tracks := [];
      nextTrackId := 1;
    }

    method AddTrack(filePath: string, startTimeMs: int) returns (track: MixerTrack)
      requires Valid()
      modifies this
      ensures Valid() && track == NewTrack(old(nextTrackId), filePath, startTimeMs)
      ensures tracks == old(tracks) + [track] && nextTrackId == old(nextTrackId) + 1
    {
      track := NewTrack(nextTrackId, filePath, startTimeMs);
      nextTrackId := nextTrackId + 1;
      tracks := tracks + [track];
    }

    method RemoveTrack(trackId: int)
      requires Valid()
      modifies this`tracks
      ensures Valid() && tracks == Without(old(tracks), trackId)
    {
      WithoutValid(tracks, nextTrackId, trackId);
      tracks := Without(tracks, trackId);
    }

    /** setVolume: the first track with the id gets the volume clamped to [0, 2]. */
    method SetVolume(trackId: int, volume: real)
      requires Valid()
      modifies this`tracks
      ensures Valid()
      ensures tracks == match FindIndex(old(tracks), trackId)
        case None => old(tracks)
        case Some(k) => old(tracks)[k := old(tracks)[k].(volume := ClampReal(volume, 0.0, 2.0))]
    {
      match FindIndex(tracks, trackId)
      case None =>
      case Some(k) =>
        tracks := tracks[k := tracks[k].(volume := ClampReal(volume, 0.0, 2.0))];
    }

    /** setPan: clamped to [-1, 1]. */
    method SetPan(trackId: int, pan: real)
      requires Valid()
      modifies this`tracks
      ensures Valid()
      ensures tracks == match FindIndex(old(tracks), trackId)
        case None => old(tracks)
        case Some(k) => old(tracks)[k := old(tracks)[k].(pan := ClampReal(pan, -1.0, 1.0))]
    {
      match FindIndex(tracks, trackId)
      case None =>
      case Some(k) =>
        tracks := tracks[k := tracks[k].(pan := ClampReal(pan, -1.0, 1.0))];
    }

    method SetFadeIn(trackId: int, durationMs: int)
      requires Valid()
      modifies this`tracks
      ensures Valid()
      ensures tracks == match FindIndex(old(tracks), trackId)
        case None => old(tracks)
        case Some(k) => old(tracks)[k := old(tracks)[k].(fadeInMs := durationMs)]
    {
      match FindIndex(tracks, trackId)
      case None =>
      case Some(k) =>
        tracks := tracks[k := tracks[k].(fadeInMs := durationMs)];
    }

    method SetFadeOut(trackId: int, durationMs: int)
      requires Valid()
      modifies this`tracks
      ensures Valid()
      ensures tracks == match FindIndex(old(tracks), trackId)
        case None => old(tracks)
        case Some(k) => old(tracks)[k := old(tracks)[k].(fadeOutMs := durationMs)]
    {
      match FindIndex(tracks, trackId)
      case None =>
      case Some(k) =>
        tracks := tracks[k := tracks[k].(fadeOutMs := durationMs)];
    }

    method SetMuted(trackId: int, muted: bool)
      requires Valid()
      modifies this`tracks
      ensures Valid()
      ensures tracks == match FindIndex(old(tracks), trackId)
        case None => old(tracks)
        case Some(k) => old(tracks)[k := old(tracks)[k].(isMuted := muted)]
    {
      match FindIndex(tracks, trackId)
      case None =>
      case Some(k) =>
        tracks := tracks[k := tracks[k].(isMuted := muted)];
    }

    /** getTrack. */
    function GetTrack(trackId: int): (r: Option<MixerTrack>)
      reads this
      ensures r.Some? ==> r.value in tracks && r.value.id == trackId
      ensures r.None? ==> forall i :: 0 <= i < |tracks| ==> tracks[i].id != trackId
    {
      FindIndexFirst(tracks, trackId);
      match FindIndex(tracks, trackId)
      case None => None
      case Some(k) => Some(tracks[k])
    }

    /**
     * mixToFile: size the buffer, mix every unmuted track whose decode
     * succeeded (decoded[k] is the decoder's result for tracks[k]),
     * normalise, and produce the WAV file; None where the Kotlin code
     * catches an exception and returns false.
     */
    method MixToFile(durationMs: int, decoded: seq<Option<seq<int>>>) returns (file: Option<seq<int>>)
      requires |decoded| == |tracks|
      ensures file == MixedFile(tracks, decoded, durationMs)
    {
      var totalSamples := ToInt32(CDiv(ToInt64(durationMs * MixSampleRate), 1000));
      var size := ToInt32(totalSamples * MixChannels);
      if size < 0 {
        return None;
      }
      var outputBuffer := new int[size](_ => 0);
      assert outputBuffer[..] == seq(size, _ => 0);
      var ok := MixAllTracks(outputBuffer, tracks, decoded);
      if !ok {
        return None;
      }
      NormalizeBuffer(outputBuffer);
      var data := SampleBuffer(outputBuffer[..]);
      file := Some(WavHeader(outputBuffer.Length, MixSampleRate, MixChannels) + data[..]);
    }
  }

  /** The track loop of mixToFile: false once a track throws. */
  method MixAllTracks(outputBuffer: array<int>, tracks: seq<MixerTrack>, decoded: seq<Option<seq<int>>>) returns (ok: bool)
    requires |decoded| == |tracks|
    modifies outputBuffer
    ensures ok <==> MixTracks(old(outputBuffer[..]), tracks, decoded, |tracks|).Some?
    ensures ok ==> MixTracks(old(outputBuffer[..]), tracks, decoded, |tracks|) == Some(outputBuffer[..])
  {
    ghost var start := outputBuffer[..];
    var k := 0;
    while k < |tracks|
      invariant 0 <= k <= |tracks|
      invariant MixTracks(start, tracks, decoded, k) == Some(outputBuffer[..])
    {
      var track := tracks[k];
      if !track.isMuted && decoded[k].Some? {
        var mixed := MixTrackIntoBuffer(outputBuffer, decoded[k].value, track, MixSampleRate);
        if !mixed {
          ThrownStaysThrown(start, tracks, decoded, k + 1);
          return false;
        }
      }
      k := k + 1;
    }
    ok := true;
  }

  /** Once a track throws, the whole mix has failed. */
  lemma {:induction false} ThrownStaysThrown(buf: seq<int>, tracks: seq<MixerTrack>, decoded: seq<Option<seq<int>>>, k: nat)
    requires k <= |tracks| == |decoded| && MixTracks(buf, tracks, decoded, k).None?
    ensures MixTracks(buf, tracks, decoded, |tracks|).None?
    decreases |tracks| - k
  {
    if k < |tracks| {
      ThrownStaysThrown(buf, tracks, decoded, k + 1);
    }
  }

  /**
   * mixTrackIntoBuffer: pair by pair from the start sample, left then right,
   * stopping once the pair would reach the buffer's last index. Returns
   * false where the Kotlin code throws ArrayIndexOutOfBoundsException.
   */
  method MixTrackIntoBuffer(output: array<int>, trackSamples: seq<int>, track: MixerTrack, sampleRate: int) returns (ok: bool)
    requires sampleRate > 0
    modifies output
    ensures ok == !MixThrows(output.Length, |trackSamples|, StartSample(track.startTimeMs, sampleRate))
    ensures ok ==> output[..] == MixedInto(old(output[..]), trackSamples, track, sampleRate)
  {
    ghost var before := output[..];
    var startSample := StartSample(track.startTimeMs, sampleRate);
    var trackDurationMs := TrackDurationMs(|trackSamples|, sampleRate);
    var i := 0;
    while i < |trackSamples|
      invariant 0 <= i <= |trackSamples| && i % 2 == 0
      invariant i > 0 ==> 0 <= startSample && startSample + i - 2 < output.Length - 1
      invariant MixedSoFar(output[..], before, trackSamples, track, sampleRate, i)
    {
      var outputIndex := startSample + i;
      if outputIndex >= output.Length - 1 {
        ok := true;
        StopDoesNotThrow(output.Length, |trackSamples|, startSample, i);
        MixStopped(before, trackSamples, track, sampleRate, i);
        MixedComplete(output[..], before, trackSamples, track, sampleRate, i);
        return;
      }
      if outputIndex < 0 || i + 1 >= |trackSamples| {
        FailureThrows(output.Length, |trackSamples|, startSample, i);
        return false;
      }
      MixPair(output, trackSamples, track, sampleRate, startSample, trackDurationMs, i, before);
      i := i + 2;
    }
    ok := true;
    EndDoesNotThrow(output.Length, |trackSamples|, startSample, i);
    MixStopped(before, trackSamples, track, sampleRate, i);
    MixedComplete(output[..], before, trackSamples, track, sampleRate, i);
  }

  /** Stopping at the buffer's end is not a throw. */
  lemma StopDoesNotThrow(outLen: int, n: int, start: int, i: int)
    requires 0 <= i < n && i % 2 == 0 && (i > 0 ==> 0 <= start)
    requires start + i >= outLen - 1
    ensures !MixThrows(outLen, n, start)
  {
  }

  /** A negative index, or a left sample without its right partner, is the throw. */
  lemma FailureThrows(outLen: int, n: int, start: int, i: int)
    requires 0 <= i < n && i % 2 == 0 && (i > 0 ==> 0 <= start)
    requires start + i < outLen - 1 && (start + i < 0 || i + 1 >= n)
    ensures MixThrows(outLen, n, start)
  {
  }

  /** Running out of track samples after whole pairs is not a throw. */
  lemma EndDoesNotThrow(outLen: int, n: int, start: int, i: int)
    requires 0 <= i == n && i % 2 == 0
    requires i > 0 ==> 0 <= start && start + i - 2 < outLen - 1
    ensures !MixThrows(outLen, n, start)
  {
  }

  /** The output indices of the first i track samples hold their mixed values; the rest are untouched. */
  ghost predicate MixedSoFar(out: seq<int>, before: seq<int>, samples: seq<int>, t: MixerTrack, sampleRate: int, i: int)
    requires sampleRate > 0
  {
    |out| == |before|
    && forall j :: 0 <= j < |out| ==>
      out[j] == if 0 <= j - StartSample(t.startTimeMs, sampleRate) < i then MixedAt(before, samples, t, sampleRate, j) else before[j]
  }

  lemma MixedComplete(out: seq<int>, before: seq<int>, samples: seq<int>, t: MixerTrack, sampleRate: int, i: int)
    requires sampleRate > 0 && MixedSoFar(out, before, samples, t, sampleRate, i)
    requires forall j :: 0 <= j < |before| && j - StartSample(t.startTimeMs, sampleRate) >= i ==>
      MixedAt(before, samples, t, sampleRate, j) == before[j]
    ensures out == MixedInto(before, samples, t, sampleRate)
  {
  }

  /** One iteration: the left and right samples of pair i/2, faded, panned, scaled and saturated. */
  method MixPair(output: array<int>, trackSamples: seq<int>, track: MixerTrack, sampleRate: int, startSample: int,
                 trackDurationMs: int, i: int, ghost before: seq<int>)
    requires sampleRate > 0 && startSample == StartSample(track.startTimeMs, sampleRate)
    requires trackDurationMs == TrackDurationMs(|trackSamples|, sampleRate)
    requires 0 <= i && i % 2 == 0 && i + 1 < |trackSamples|
    requires 0 <= startSample + i < output.Length - 1
    requires MixedSoFar(output[..], before, trackSamples, track, sampleRate, i)
    modifies output
    ensures MixedSoFar(output[..], before, trackSamples, track, sampleRate, i + 2)
  {
    var outputIndex := startSample + i;
    var timeMs := (i / 2) * 1000 / sampleRate;
    var volume := FadedVolume(track, timeMs, trackDurationMs);
    var leftVolume := LeftGain(volume, track.pan);
    var rightVolume := RightGain(volume, track.pan);
    assert (i + 1) / 2 == i / 2 && (i + 1) % 2 == 1;
    assert leftVolume == SampleGain(track, |trackSamples|, sampleRate, i);
    assert rightVolume == SampleGain(track, |trackSamples|, sampleRate, i + 1);
    var leftSample := Scaled(trackSamples[i], leftVolume);
    output[outputIndex] := Clamp(output[outputIndex] + leftSample, ShortMin, ShortMax);
    var rightSample := Scaled(trackSamples[i + 1], rightVolume);
    output[outputIndex + 1] := Clamp(output[outputIndex + 1] + rightSample, ShortMin, ShortMax);
    assert output[outputIndex] == MixedAt(before, trackSamples, track, sampleRate, outputIndex);
    assert output[outputIndex + 1] == MixedAt(before, trackSamples, track, sampleRate, outputIndex + 1);
  }

  /** Past pair i nothing more is written: every later pair lies beyond the track or the buffer. */
  lemma MixStopped(out: seq<int>, samples: seq<int>, t: MixerTrack, sampleRate: int, i: int)
    requires sampleRate > 0 && 0 <= i && i % 2 == 0
    requires i >= |samples| || StartSample(t.startTimeMs, sampleRate) + i >= |out| - 1
    ensures forall j :: 0 <= j < |out| && j - StartSample(t.startTimeMs, sampleRate) >= i ==>
      MixedAt(out, samples, t, sampleRate, j) == out[j]
  {
  }
}
