// AudioEffects (AudioEffects.kt): per-sample effects on 16-bit PCM.
// Floats are taken exactly (reals); toInt() truncates toward zero and, as
// Kotlin's Float.toInt() does, saturates at the Int range where a value
// could leave it.
module AudioEffects {
  import opened Common

  predicate AllShorts(s: seq<int>) { forall i :: 0 <= i < |s| ==> IsShort(s[i]) }

  // ---------------------------------------------------------------------
  // adjustVolume
  // ---------------------------------------------------------------------

  /** (sample * volume).toInt().coerceIn(Short range). */
  function VolumeSample(sample: int, volume: real): int
  {
    Saturate(FloatToInt(sample as real * volume))
  }

  function AdjustVolume(samples: seq<int>, volume: real): (r: seq<int>)
    ensures |r| == |samples|
  {
    seq(|samples|, i requires 0 <= i < |samples| => VolumeSample(samples[i], volume))
  }

  /**
   * adjustVolume keeps the length and produces 16-bit samples; volume 1
   * keeps 16-bit input, volume 0 silences it, and a volume in [0, 1] never
   * raises a magnitude.
   */
  lemma AdjustVolumeProperties(samples: seq<int>, volume: real)
    ensures AllShorts(AdjustVolume(samples, volume))
    ensures AllShorts(samples) && volume == 1.0 ==> AdjustVolume(samples, volume) == samples
    ensures volume == 0.0 ==> forall i :: 0 <= i < |samples| ==> AdjustVolume(samples, volume)[i] == 0
    ensures AllShorts(samples) && 0.0 <= volume <= 1.0 ==>
      forall i :: 0 <= i < |samples| ==> Abs(AdjustVolume(samples, volume)[i]) <= Abs(samples[i])
  {
    var r := AdjustVolume(samples, volume);
    forall i | 0 <= i < |samples|
      ensures IsShort(samples[i]) && volume == 1.0 ==> r[i] == samples[i]
      ensures volume == 0.0 ==> r[i] == 0
      ensures IsShort(samples[i]) && 0.0 <= volume <= 1.0 ==> Abs(r[i]) <= Abs(samples[i])
    {
      assert r[i] == VolumeSample(samples[i], volume);
      VolumeSampleProperties(samples[i], volume);
    }
  }

  lemma VolumeSampleProperties(s: int, volume: real)
    ensures IsShort(s) && volume == 1.0 ==> VolumeSample(s, volume) == s
    ensures volume == 0.0 ==> VolumeSample(s, volume) == 0
    ensures IsShort(s) && 0.0 <= volume <= 1.0 ==> Abs(VolumeSample(s, volume)) <= Abs(s)
  {
    if IsShort(s) && 0.0 <= volume <= 1.0 {
      assert Abs(VolumeSample(s, volume)) <= Abs(s) by {
        ScaleTowardZero(s, volume);
      }
    }
    if volume == 1.0 {
      assert IsShort(s) ==> VolumeSample(s, volume) == s by {
        assert s as real * volume == s as real;
        assert Trunc(s as real) == s;
      }
    }
    if volume == 0.0 {
      assert VolumeSample(s, volume) == 0 by {
        assert s as real * volume == 0.0;
        assert Trunc(0.0) == 0;
      }
    }
  }

  /** Scaling a 16-bit sample by a factor in [0, 1] and truncating gives a 16-bit value no larger in magnitude. */
  lemma ScaleTowardZero(s: int, factor: real)
    requires IsShort(s) && 0.0 <= factor <= 1.0
    ensures var v := Trunc((s as real) * factor); Abs(v) <= Abs(s) && IsShort(v) && FloatToInt((s as real) * factor) == v
  {
    if s >= 0 {
      PosScaleTrunc(s, factor);
    } else {
      NegScaleTrunc(s, factor);
    }
  }

  lemma NegScaleTrunc(s: int, factor: real)
    requires s < 0 && 0.0 <= factor <= 1.0
    ensures s <= Trunc((s as real) * factor) <= 0
  {
    var a := s as real;
    RealMulBetween(-a, factor);
    assert -a * factor == -(a * factor);
    TruncBetween(a * factor, s);
  }

  lemma MulPositive(a: real, b: real)
    requires a > 0.0 && b > 0.0
    ensures a * b > 0.0
  {
  }

  /** i / d lies in [0, 1] for 0 <= i <= d. */
  lemma FractionInUnit(i: int, d: int)
    requires 0 <= i <= d && d > 0
    ensures 0.0 <= i as real / d as real <= 1.0
  {
    var q := i as real / d as real;
    assert q * d as real == i as real;
    assert q <= 1.0 by {
      if q > 1.0 {
        MulPositive(q - 1.0, d as real);
      }
    }
  }

  // ---------------------------------------------------------------------
  // fadeIn
  // ---------------------------------------------------------------------

  /** The faded value of sample i: (samples[i] * (i / duration)).toInt().toShort(). */
  function FadeInSample(sample: int, i: int, durationSamples: int): int
    requires durationSamples != 0
  {
    ScaledShort(sample, i as real / durationSamples as real)
  }

  /** (sample * factor).toInt().toShort(). */
  function ScaledShort(sample: int, factor: real): int
  {
    ToShort(FloatToInt(sample as real * factor))
  }

  /** A factor in [0, 1] never raises a 16-bit magnitude, so the toShort() cast never wraps. */
  lemma ScaledShortShrinks(s: int, factor: real)
    requires IsShort(s) && 0.0 <= factor <= 1.0
    ensures Abs(ScaledShort(s, factor)) <= Abs(s)
  {
    ScaleTowardZero(s, factor);
  }

  /** fadeIn's result: the first min(duration, size) samples ramped up, the rest copied. */
  function FadedIn(samples: seq<int>, durationSamples: int): (r: seq<int>)
    ensures |r| == |samples|
  {
    seq(|samples|, i requires 0 <= i < |samples| =>
      if i < durationSamples then FadeInSample(samples[i], i, durationSamples) else samples[i])
  }

  /** fadeIn: copyOf, then the ramp over indices below min(durationSamples, size). */
  method FadeIn(samples: seq<int>, durationSamples: int) returns (result: array<int>)
    ensures fresh(result) && result[..] == FadedIn(samples, durationSamples)
  {
    result := new int[|samples|](i requires 0 <= i < |samples| => samples[i]);
    var limit := Min(durationSamples, |samples|);
    var i := 0;
    while i < limit
      invariant 0 <= i <= Max(limit, 0)
      invariant forall j :: 0 <= j < result.Length ==>
        result[j] == if j < i then FadeInSample(samples[j], j, durationSamples) else samples[j]
    {
      result[i] := FadeInSample(samples[i], i, durationSamples);
      i := i + 1;
    }
  }

  /**
   * fadeIn silences sample 0 when the fade is positive, leaves every sample
   * at or past the fade untouched, and never raises a 16-bit magnitude.
   */
  lemma FadeInProperties(samples: seq<int>, durationSamples: int)
    ensures var r := FadedIn(samples, durationSamples);
      (durationSamples > 0 && |samples| > 0 ==> r[0] == 0)
      && (forall i :: 0 <= i < |samples| && i >= durationSamples ==> r[i] == samples[i])
      && (AllShorts(samples) && durationSamples > 0 ==> forall i :: 0 <= i < |samples| ==> Abs(r[i]) <= Abs(samples[i]))
  {
    var r := FadedIn(samples, durationSamples);
    if durationSamples > 0 && |samples| > 0 {
      assert r[0] == 0 by {
        assert samples[0] as real * (0 as real / durationSamples as real) == 0.0;
      }
    }
    if AllShorts(samples) && durationSamples > 0 {
      forall i | 0 <= i < |samples| ensures Abs(r[i]) <= Abs(samples[i]) {
        if i < durationSamples {
          FadeInOne(samples[i], i, durationSamples);
        }
      }
    }
  }

  lemma FadeInOne(s: int, i: int, d: int)
    requires IsShort(s) && 0 <= i < d
    ensures Abs(FadeInSample(s, i, d)) <= Abs(s)
  {
    FractionInUnit(i, d);
    ScaledShortShrinks(s, i as real / d as real);
  }

  // ---------------------------------------------------------------------
  // reverse
  // ---------------------------------------------------------------------

  /** reversedArray. */
  function Reverse(samples: seq<int>): (r: seq<int>)
    ensures |r| == |samples|
  {
    seq(|samples|, i requires 0 <= i < |samples| => samples[|samples| - 1 - i])
  }

  /** Reversing twice gives back the samples, and reversing keeps the multiset of samples. */
  lemma ReverseInvolution(samples: seq<int>)
    ensures Reverse(Reverse(samples)) == samples
    ensures multiset(Reverse(samples)) == multiset(samples)
  {
    ReverseMultiset(samples);
  }

  lemma {:induction false} ReverseMultiset(samples: seq<int>)
    ensures multiset(Reverse(samples)) == multiset(samples)
    decreases |samples|
  {
    if samples != [] {
      var rest := samples[1..];
      ReverseMultiset(rest);
      assert Reverse(samples) == Reverse(rest) + [samples[0]];
      assert samples == [samples[0]] + rest;
    }
  }

  // ---------------------------------------------------------------------
  // changeSpeed
  // ---------------------------------------------------------------------

  /** The source index of output sample i: (i * speed).toInt() clamped into the input. */
  function SpeedSource(i: int, speed: real, size: int): int
    requires size > 0
  {
    Clamp(FloatToInt(i as real * speed), 0, size - 1)
  }

  /** changeSpeed's output length: (size / speed).toInt(), in Float arithmetic. */
  function SpeedLength(size: int, speed: real): int
  {
    FloatDivToInt(size as real, speed)
  }

  /**
   * changeSpeed: ShortArray(newLength) { samples[srcIndex] }. A negative
   * length makes the array constructor throw NegativeArraySizeException
   * (None).
   */
  function ChangeSpeed(samples: seq<int>, speed: real): (r: Option<seq<int>>)
    ensures r.None? <==> SpeedLength(|samples|, speed) < 0
    ensures r.Some? ==> |r.value| == SpeedLength(|samples|, speed)
  {
    var n := SpeedLength(|samples|, speed);
    if n < 0 then None
    else if |samples| == 0 then
      assert n == 0 by {
        assert |samples| as real == 0.0;
        if speed != 0.0 {
          assert 0.0 / speed == 0.0;
        }
      }
      Some([])
    else Some(seq(n, i requires 0 <= i < n => samples[SpeedSource(i, speed, |samples|)]))
  }

  /**
   * Every output sample is copied from an input sample; speed 1 returns the
   * input unchanged; an empty input gives an empty output whatever the
   * speed; a positive speed never throws; speed 0 asks for an array of
   * Int.MAX_VALUE samples; a negative speed no larger in magnitude than the
   * input's size throws.
   */
  lemma ChangeSpeedProperties(samples: seq<int>, speed: real)
    ensures var r := ChangeSpeed(samples, speed);
      (r.Some? ==> forall i :: 0 <= i < |r.value| ==> r.value[i] in samples)
      && (speed == 1.0 && |samples| < 0x8000_0000 ==> r == Some(samples))
      && (samples == [] ==> r == Some([]))
      && (speed > 0.0 ==> r.Some?)
      && (speed == 0.0 && samples != [] ==> r.Some? && |r.value| == 0x7fff_ffff)
      && (speed < 0.0 && |samples| as real >= -speed ==> r.None?)
  {
    var size := |samples| as real;
    if speed > 0.0 {
      PositiveQuotient(size, speed);
    }
    if speed == 1.0 && |samples| < 0x8000_0000 {
      UnitSpeed(samples);
    }
    if speed < 0.0 && size >= -speed {
      NegativeQuotient(size, speed);
    }
  }

  lemma UnitSpeed(samples: seq<int>)
    requires |samples| < 0x8000_0000
    ensures ChangeSpeed(samples, 1.0) == Some(samples)
  {
    assert |samples| as real / 1.0 == |samples| as real;
    assert SpeedLength(|samples|, 1.0) == |samples|;
    if samples != [] {
      var r := ChangeSpeed(samples, 1.0);
      forall i | 0 <= i < |r.value| ensures r.value[i] == samples[i] {
        assert i as real * 1.0 == i as real;
        assert SpeedSource(i, 1.0, |samples|) == i;
      }
      assert r.value == samples;
    }
  }

  lemma PositiveQuotient(size: real, speed: real)
    requires size >= 0.0 && speed > 0.0
    ensures size / speed >= 0.0
  {
    RealMulNonneg(size, 1.0 / speed);
    assert size / speed == size * (1.0 / speed);
  }

  /** A size at least as large as a negative divisor's magnitude gives a quotient of at most −1. */
  lemma NegativeQuotient(size: real, speed: real)
    requires speed < 0.0 && size >= -speed
    ensures size / speed <= -1.0
  {
    assert size / -speed >= 1.0 by {
      RealDivAtLeastOne(-speed, 1.0);
      assert size >= -speed;
      calc {
        size / -speed;
      >= { assert size * (1.0 / -speed) >= -speed * (1.0 / -speed); }
        -speed / -speed;
      }
    }
    assert size / speed == -(size / -speed);
  }

  // ---------------------------------------------------------------------
  // echo
  // ---------------------------------------------------------------------

  /** One echoed sample: (current + (earlier * decay).toInt()) in Int arithmetic, clamped to 16 bits. */
  function EchoSample(current: int, earlier: int, decay: real): int
  {
    Saturate(ToInt32(current + FloatToInt((earlier as real) * decay)))
  }

  /**
   * Sample i after the echo: from delaySamples on, the echo of itself and
   * the sample delaySamples earlier; before that, unchanged.
   */
  function EchoAt(samples: seq<int>, i: int, delaySamples: int, decay: real): int
    requires 0 <= i < |samples| && 0 <= delaySamples
  {
    if i >= delaySamples then EchoSample(samples[i], samples[i - delaySamples], decay)
    else samples[i]
  }

  /**
   * echo's result; None for a negative delay, where the loop starts at a
   * negative index and Kotlin throws (even on empty input, since the
   * range delaySamples until 0 is then not empty).
   */
  function Echoed(samples: seq<int>, delaySamples: int, decay: real): (r: Option<seq<int>>)
    ensures r.Some? <==> delaySamples >= 0
    ensures r.Some? ==> |r.value| == |samples|
  {
    if delaySamples < 0 then None
    else Some(seq(|samples|, i requires 0 <= i < |samples| => EchoAt(samples, i, delaySamples, decay)))
  }

  /** echo: copyOf, then the delayed add from delaySamples on. */
  method Echo(samples: seq<int>, delaySamples: int, decay: real) returns (result: Option<seq<int>>)
    ensures result == Echoed(samples, delaySamples, decay)
  {
    if delaySamples < 0 {
      return None;
    }
    var out := new int[|samples|](i requires 0 <= i < |samples| => samples[i]);
    var i := delaySamples;
    while i < |samples|
      invariant 0 <= delaySamples
      invariant forall j :: 0 <= j < i && j < out.Length ==> out[j] == EchoAt(samples, j, delaySamples, decay)
      invariant forall j :: i <= j < out.Length ==> out[j] == samples[j]
    {
      out[i] := EchoSample(out[i], samples[i - delaySamples], decay);
      i := i + 1;
    }
    assert out[..] == Echoed(samples, delaySamples, decay).value;
    result := Some(out[..]);
  }

  /** echo leaves the first delaySamples samples alone and produces 16-bit samples elsewhere. */
  lemma EchoProperties(samples: seq<int>, delaySamples: int, decay: real)
    requires delaySamples >= 0
    ensures Echoed(samples, delaySamples, decay).Some?
    ensures var r := Echoed(samples, delaySamples, decay).value;
      (forall i :: 0 <= i < |samples| && i < delaySamples ==> r[i] == samples[i])
      && (forall i :: delaySamples <= i < |samples| ==> IsShort(r[i]))
      && (decay == 0.0 && AllShorts(samples) ==> r == samples)
  {
    var r := Echoed(samples, delaySamples, decay).value;
    if decay == 0.0 && AllShorts(samples) {
      forall i | delaySamples <= i < |samples| ensures r[i] == samples[i] {
        assert samples[i - delaySamples] as real * decay == 0.0;
        assert FloatToInt(0.0) == 0;
      }
    }
  }

  // ---------------------------------------------------------------------
  // trimSilence
  // ---------------------------------------------------------------------

  predicate Loud(sample: int, threshold: int) { Abs(sample) >= threshold }

  /** The index of the first loud sample at or after k, or the size. */
  function FirstLoud(samples: seq<int>, threshold: int, k: nat): (r: nat)
    requires k <= |samples|
    ensures k <= r <= |samples|
    ensures r < |samples| ==> Loud(samples[r], threshold)
    ensures forall j :: k <= j < r ==> !Loud(samples[j], threshold)
    decreases |samples| - k
  {
    if k == |samples| || Loud(samples[k], threshold) then k else FirstLoud(samples, threshold, k + 1)
  }

  /** The index of the last loud sample in (lo, hi], or lo. */
  function LastLoud(samples: seq<int>, threshold: int, lo: int, hi: int): (r: int)
    requires 0 <= lo <= hi < |samples|
    ensures lo <= r <= hi
    ensures r > lo ==> Loud(samples[r], threshold)
    ensures forall j :: r < j <= hi ==> !Loud(samples[j], threshold)
    decreases hi - lo
  {
    if hi == lo || Loud(samples[hi], threshold) then hi else LastLoud(samples, threshold, lo, hi - 1)
  }

  /** trimSilence's result: from the first to the last loud sample, or nothing. */
  function Trimmed(samples: seq<int>, threshold: int): seq<int>
  {
    var start := FirstLoud(samples, threshold, 0);
    if start == |samples| then [] else samples[start..LastLoud(samples, threshold, start, |samples| - 1) + 1]
  }

  /**
   * The trimmed samples are a slice of the input that is empty exactly when
   * no sample is loud, and otherwise starts and ends loud with every loud
   * sample inside it.
   */
  lemma TrimmedProperties(samples: seq<int>, threshold: int)
    ensures var r := Trimmed(samples, threshold);
      (r == [] <==> forall i :: 0 <= i < |samples| ==> !Loud(samples[i], threshold))
      && (r != [] ==> Loud(r[0], threshold) && Loud(r[|r| - 1], threshold))
      && exists a, b :: 0 <= a <= b <= |samples| && r == samples[a..b]
           && forall i :: 0 <= i < |samples| && !(a <= i < b) ==> !Loud(samples[i], threshold)
  {
    var start := FirstLoud(samples, threshold, 0);
    if start == |samples| {
      assert Trimmed(samples, threshold) == samples[0..0];
    } else {
      var end := LastLoud(samples, threshold, start, |samples| - 1);
      assert Trimmed(samples, threshold) == samples[start..end + 1];
    }
  }

  /** trimSilence: scan forward for the start, back for the end, then copyOfRange. */
  method TrimSilence(samples: seq<int>, threshold: int) returns (result: seq<int>)
    ensures result == Trimmed(samples, threshold)
  {
    var start := 0;
    var end := |samples| - 1;
    while start < |samples| && Abs(samples[start]) < threshold
      invariant 0 <= start <= |samples|
      invariant FirstLoud(samples, threshold, 0) == FirstLoud(samples, threshold, start)
    {
      start := start + 1;
    }
    if start == |samples| {
      return samples[start..start];
    }
    while end > start && Abs(samples[end]) < threshold
      invariant start <= end < |samples|
      invariant LastLoud(samples, threshold, start, |samples| - 1) == LastLoud(samples, threshold, start, end)
    {
      end := end - 1;
    }
    result := samples[start..end + 1];
  }

  // ---------------------------------------------------------------------
  // noiseGate
  // ---------------------------------------------------------------------

  function NoiseGate(samples: seq<int>, threshold: int): (r: seq<int>)
    ensures |r| == |samples|
  {
    seq(|samples|, i requires 0 <= i < |samples| => if Abs(samples[i]) < threshold then 0 else samples[i])
  }

  /** The gate zeroes exactly the quiet samples, keeps the loud ones, and gating twice changes nothing more. */
  lemma NoiseGateProperties(samples: seq<int>, threshold: int)
    ensures var r := NoiseGate(samples, threshold);
      (forall i :: 0 <= i < |samples| ==> (r[i] == samples[i] || r[i] == 0))
      && (forall i :: 0 <= i < |samples| && Loud(samples[i], threshold) ==> r[i] == samples[i])
      && (forall i :: 0 <= i < |samples| && !Loud(samples[i], threshold) ==> r[i] == 0)
      && (threshold <= 0 ==> r == samples)
      && NoiseGate(r, threshold) == (if threshold > 0 then r else samples)
  {
  }

  // ---------------------------------------------------------------------
  // compress
  // ---------------------------------------------------------------------

  /** (Short.MAX_VALUE * threshold).toInt(). */
  function ThresholdValue(threshold: real): int
  {
    FloatToInt(ShortMax as real * threshold)
  }

  /** One compressed sample: the excess over the threshold divided by the ratio, sign restored. */
  function CompressSample(sample: int, thresholdValue: int, ratio: real): int
  {
    var abs := Abs(sample);
    if abs > thresholdValue then Recompose(sample, thresholdValue, FloatDivToInt(ToInt32(abs - thresholdValue) as real, ratio))
    else sample
  }

  /** threshold + the reduced excess, in Int, given the sign of the input sample and cast to Short. */
  function Recompose(sample: int, thresholdValue: int, reduced: int): int
  {
    var compressed := ToInt32(thresholdValue + reduced);
    ToShort(if sample >= 0 then compressed else ToInt32(-compressed))
  }

  function Compress(samples: seq<int>, threshold: real, ratio: real): (r: seq<int>)
    ensures |r| == |samples|
  {
    var tv := ThresholdValue(threshold);
    seq(|samples|, i requires 0 <= i < |samples| => CompressSample(samples[i], tv, ratio))
  }

  /**
   * For 16-bit input, a threshold in [0, 1] and a ratio of at least 1:
   * samples at or below the threshold value are kept, and the others lose
   * magnitude without changing side of zero (a zero threshold value may
   * bring them to 0), never falling below the threshold value.
   */
  lemma CompressProperties(samples: seq<int>, threshold: real, ratio: real)
    requires AllShorts(samples) && 0.0 <= threshold <= 1.0 && ratio >= 1.0
    ensures var r := Compress(samples, threshold, ratio); var tv := ThresholdValue(threshold);
      forall i :: 0 <= i < |samples| ==>
        (Abs(samples[i]) <= tv ==> r[i] == samples[i])
        && (samples[i] >= 0 ==> r[i] >= 0) && (samples[i] <= 0 ==> r[i] <= 0)
        && Abs(r[i]) <= Abs(samples[i])
        && (Abs(samples[i]) > tv ==> Abs(r[i]) >= tv)
  {
    var tv := ThresholdValue(threshold);
    ThresholdInRange(threshold);
    forall i | 0 <= i < |samples| {
      CompressOne(samples[i], tv, ratio);
    }
  }

  lemma ThresholdInRange(threshold: real)
    requires 0.0 <= threshold <= 1.0
    ensures 0 <= ThresholdValue(threshold) <= ShortMax
  {
    var x := ShortMax as real * threshold;
    assert 0.0 <= x <= ShortMax as real by {
      assert ShortMax as real * threshold <= ShortMax as real * 1.0;
    }
  }

  lemma CompressOne(s: int, tv: int, ratio: real)
    requires IsShort(s) && 0 <= tv <= ShortMax && ratio >= 1.0
    ensures var c := CompressSample(s, tv, ratio);
      (Abs(s) <= tv ==> c == s) && (s >= 0 ==> c >= 0) && (s <= 0 ==> c <= 0)
      && Abs(c) <= Abs(s) && (Abs(s) > tv ==> Abs(c) >= tv)
  {
    if Abs(s) > tv {
      CompressLoud(s, tv, ratio);
    }
  }

  lemma CompressLoud(s: int, tv: int, ratio: real)
    requires IsShort(s) && 0 <= tv < Abs(s) && ratio >= 1.0
    ensures var c := CompressSample(s, tv, ratio);
      (s >= 0 ==> c >= 0) && (s <= 0 ==> c <= 0) && tv <= Abs(c) <= Abs(s)
  {
    var excess := Abs(s) - tv;
    assert ToInt32(excess) == excess;
    var d := FloatDivToInt(excess as real, ratio);
    ExcessShrinks(excess, ratio);
    assert CompressSample(s, tv, ratio) == Recompose(s, tv, d);
    LoudSample(s, tv, d);
  }

  /** Above the threshold no cast wraps: the sample becomes threshold + d with the sign of the input. */
  lemma LoudSample(s: int, tv: int, d: int)
    requires IsShort(s) && 0 <= tv && 0 <= d && tv + d <= Abs(s)
    ensures Recompose(s, tv, d) == if s >= 0 then tv + d else -(tv + d)
  {
    var c := tv + d;
    assert ToInt32(c) == c;
    if s < 0 {
      assert ToInt32(-c) == -c;
    }
  }

  /**
   * A zero ratio turns the excess into +∞, saturated to Int.MAX_VALUE; the
   * Int sum wraps and the Short cast leaves threshold − 1 with the input's
   * sign, so a zero threshold flips every non-zero sample to the other side
   * of zero.
   */
  lemma {:induction false} CompressByZeroRatio(s: int, tv: int)
    requires IsShort(s) && 0 <= tv <= ShortMax && Abs(s) > tv
    ensures CompressSample(s, tv, 0.0) == if s >= 0 then tv - 1 else 1 - tv
  {
    var excess := Abs(s) - tv;
    assert ToInt32(excess) == excess;
    assert FloatDivToInt(excess as real, 0.0) == 0x7fff_ffff;
    var compressed := ToInt32(tv + 0x7fff_ffff);
    if tv == 0 {
      assert compressed == 0x7fff_ffff;
      ShortOfShifted(-1, 32768);
      if s < 0 {
        assert ToInt32(-compressed) == -0x7fff_ffff;
        ShortOfShifted(1, -32768);
      }
    } else {
      assert compressed == tv - 0x8000_0001;
      ShortOfShifted(tv - 1, -32768);
      if s < 0 {
        if tv == 1 {
          assert ToInt32(-compressed) == -0x8000_0000;
          ShortOfShifted(0, -32768);
        } else {
          assert ToInt32(-compressed) == 0x8000_0001 - tv;
          ShortOfShifted(1 - tv, 32768);
        }
      }
    }
  }

  /** The Short cast ignores whole multiples of 65536. */
  lemma ShortOfShifted(x: int, k: int)
    requires IsShort(x)
    ensures ToShort(x + k * 65536) == x
  {
    assert (x + k * 65536 + 32768) % 65536 == (x + 32768) % 65536;
  }

  /** The excess over the threshold, divided by a ratio of at least 1 and truncated, does not grow. */
  lemma ExcessShrinks(excess: int, ratio: real)
    requires excess >= 0 && ratio >= 1.0
    ensures 0 <= FloatToInt(excess as real / ratio) <= excess
  {
    RealDivAtLeastOne(excess as real, ratio);
    TruncWithin(excess as real / ratio, 0, excess);
  }
}
