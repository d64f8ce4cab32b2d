// TimeUtils (time_utils.h): microsecond timestamps rendered as
// "HH:MM:SS.mmm" with printf("%02d:%02d:%02d.%03d"), read back with
// sscanf("%d:%d:%d.%d"), and the frame/microsecond conversions.
module TimeUtils {
  import opened Common

  const MicrosPerSecond: int := 1000000

  // ---------------------------------------------------------------------
  // printf "%0<w>d"
  // ---------------------------------------------------------------------

  function DigitChar(d: int): char
    requires 0 <= d < 10
  {
    (48 + d) as char
  }

  predicate IsDigit(ch: char) { '0' <= ch <= '9' }

  function DigitValue(ch: char): int
  {
    ch as int - 48
  }

  /** Decimal digits of n, most significant first, no leading zeros. */
  function Digits(n: nat): (s: string)
    ensures |s| >= 1 && forall i :: 0 <= i < |s| ==> IsDigit(s[i])
    decreases n
  {
    if n < 10 then [DigitChar(n)] else Digits(n / 10) + [DigitChar(n % 10)]
  }

  function Zeros(k: int): (s: string)
    ensures |s| == Max(k, 0) && forall i :: 0 <= i < |s| ==> s[i] == '0'
    decreases k
  {
    if k <= 0 then [] else Zeros(k - 1) + ['0']
  }

  /** printf("%0<width>d", v): the sign, then zeros up to the width, then digits. */
  function Pad(v: int, width: nat): string
  {
    if v < 0 then "-" + Zeros(width - 1 - |Digits(-v)|) + Digits(-v)
    else Zeros(width - |Digits(v)|) + Digits(v)
  }

  lemma {:induction false} DigitsLength(n: nat, width: nat)
    requires width >= 1 && n < Pow10(width)
    ensures |Digits(n)| <= width
    decreases width
  {
    if n >= 10 {
      DigitsLength(n / 10, width - 1);
    }
  }

  function Pow10(k: nat): (r: nat)
    ensures r >= 1
  {
    if k == 0 then 1 else 10 * Pow10(k - 1)
  }

  // ---------------------------------------------------------------------
  // formatTime
  // ---------------------------------------------------------------------

  datatype Clock = Clock(hours: int, minutes: int, seconds: int, millis: int)

  /** The four fields formatTime computes, with C++ truncating division. */
  function ClockOf(micros: int): (c: Clock)
    ensures micros >= 0 ==> 0 <= c.minutes < 60 && 0 <= c.seconds < 60 && 0 <= c.millis < 1000
    ensures micros >= 0 ==> c.hours == ToInt32(micros / 3600000000)
    ensures micros >= 0 && c.hours == micros / 3600000000 ==>
      (c.hours * 3600 + c.minutes * 60 + c.seconds) * MicrosPerSecond + c.millis * 1000 == micros - micros % 1000
  {
    var totalSeconds := CDiv(micros, MicrosPerSecond);
    var millis := CDiv(CRem(micros, MicrosPerSecond), 1000);
    var hours := ToInt32(CDiv(totalSeconds, 3600));
    var minutes := CDiv(CRem(totalSeconds, 3600), 60);
    var seconds := CRem(totalSeconds, 60);
    if micros >= 0 then
      ClockArithmetic(micros);
      Clock(hours, minutes, seconds, millis)
    else
      Clock(hours, minutes, seconds, millis)
  }

  lemma ClockArithmetic(micros: int)
    requires micros >= 0
    ensures var ts := micros / MicrosPerSecond;
      ts / 3600 == micros / 3600000000 &&
      ((ts / 3600) * 3600 + (ts % 3600) / 60 * 60 + ts % 60) * MicrosPerSecond
        + (micros % MicrosPerSecond) / 1000 * 1000 == micros - micros % 1000
  {
    var ts := micros / MicrosPerSecond;
    HmsRecompose(ts);
    var sub := micros % MicrosPerSecond;
    assert ts * MicrosPerSecond + sub == micros;
    MillisRecompose(sub);
    assert micros % 1000 == sub % 1000 by {
      assert micros == ts * 1000 * 1000 + sub;
      DivModUnique(micros, 1000, ts * 1000 + sub / 1000, sub % 1000);
    }
    DivDiv(micros, MicrosPerSecond, 3600);
  }

  /** Hours, minutes and seconds put back together give the seconds. */
  lemma HmsRecompose(ts: int)
    requires ts >= 0
    ensures (ts / 3600) * 3600 + (ts % 3600) / 60 * 60 + ts % 60 == ts
  {
    var r := ts % 3600;
    assert r / 60 * 60 + r % 60 == r;
    assert ts % 60 == r % 60 by {
      DivModUnique(ts, 60, (ts / 3600) * 60 + r / 60, r % 60);
    }
  }

  lemma MillisRecompose(sub: int)
    requires sub >= 0
    ensures sub / 1000 * 1000 + sub % 1000 == sub
  {
  }

  lemma DivDiv(a: int, b: int, c: int)
    requires a >= 0 && b > 0 && c > 0
    ensures a / b / c == a / (b * c)
  {
    var q := a / b / c;
    var r := a / b % c;
    assert a / b == q * c + r;
    assert a == (q * c + r) * b + a % b;
    assert a == q * (b * c) + (r * b + a % b);
    assert r * b + a % b < b * c by {
      assert r * b <= (c - 1) * b;
    }
    DivModUnique(a, b * c, q, r * b + a % b);
  }

  /** The four zero-padded fields of "%02d:%02d:%02d.%03d". */
  function Fields(c: Clock): seq<string>
  {
    [Pad(c.hours, 2), Pad(c.minutes, 2), Pad(c.seconds, 2), Pad(c.millis, 3)]
  }

  /** Fields k..3 joined by the separators of the format. */
  function Joined(ps: seq<string>, k: nat): string
    requires |ps| == 4 && k <= 3
    decreases 3 - k
  {
    if k == 3 then ps[3] else ps[k] + ([Separator(k)] + Joined(ps, k + 1))
  }

  /** The "%02d:%02d:%02d.%03d" rendering of the four fields. */
  function Render(c: Clock): string
  {
    Joined(Fields(c), 0)
  }

  lemma {:induction false} RenderShape(c: Clock)
    requires 0 <= c.hours < 100 && 0 <= c.minutes < 100 && 0 <= c.seconds < 100 && 0 <= c.millis < 1000
    ensures var s := Render(c); |s| == 12 && s[2] == ':' && s[5] == ':' && s[8] == '.'
  {
    DigitsLength(c.hours, 2);
    DigitsLength(c.minutes, 2);
    DigitsLength(c.seconds, 2);
    DigitsLength(c.millis, 3);
    var ps := Fields(c);
    assert |Joined(ps, 2)| == 6 && Joined(ps, 2)[2] == '.';
    assert |Joined(ps, 1)| == 9 && Joined(ps, 1)[2] == ':' && Joined(ps, 1)[5] == '.';
  }

  /** TimeUtils::formatTime. */
  function FormatTime(micros: int): (s: string)
    ensures 0 <= micros < 100 * 3600000000 ==>
      |s| == 12 && s[2] == ':' && s[5] == ':' && s[8] == '.'
  {
    var c := ClockOf(micros);
    if 0 <= micros < 100 * 3600000000 then
      RenderShape(c);
      Render(c)
    else
      Render(c)
  }

  // ---------------------------------------------------------------------
  // sscanf "%d:%d:%d.%d"
  // ---------------------------------------------------------------------

  predicate IsSpace(ch: char)
  {
    ch == ' ' || ch == '\t' || ch == '\n' || ch == '\r' || ch == '\U{B}' || ch == '\U{C}'
  }

  /** First index at or after i that is not white space. */
  function SpaceEnd(s: string, i: nat): (j: nat)
    requires i <= |s|
    ensures i <= j <= |s| && (j == |s| || !IsSpace(s[j]))
    decreases |s| - i
  {
    if i < |s| && IsSpace(s[i]) then SpaceEnd(s, i + 1) else i
  }

  /** First index at or after i that is not a decimal digit. */
  function DigitEnd(s: string, i: nat): (j: nat)
    requires i <= |s|
    ensures i <= j <= |s| && (j == |s| || !IsDigit(s[j]))
    decreases |s| - i
  {
    if i < |s| && IsDigit(s[i]) then DigitEnd(s, i + 1) else i
  }

  predicate DigitString(p: string) { |p| >= 1 && forall i :: 0 <= i < |p| ==> IsDigit(p[i]) }

  /** Decimal value of the characters s[i..j]. */
  function ValueOf(s: string, i: nat, j: nat): int
    requires i <= j <= |s|
    decreases j - i
  {
    if j == i then 0 else ValueOf(s, i, j - 1) * 10 + DigitValue(s[j - 1])
  }

  function Value(ds: string): int { ValueOf(ds, 0, |ds|) }

  /**
   * One "%d" conversion: skip white space, an optional sign, then the longest
   * run of digits (at least one). Returns the value and the unread rest.
   */
  function ScanInt(s: string): (r: Option<(int, string)>)
    ensures r.Some? ==> |r.value.1| < |s|
  {
    var a := SpaceEnd(s, 0);
    var neg := a < |s| && s[a] == '-';
    var b := if a < |s| && (s[a] == '-' || s[a] == '+') then a + 1 else a;
    var e := DigitEnd(s, b);
    if e == b then None
    else Some((if neg then -ValueOf(s, b, e) else ValueOf(s, b, e), s[e..]))
  }

  /** The literal that follows conversion k in "%d:%d:%d.%d". */
  function Separator(k: nat): char { if k < 2 then ':' else '.' }

  /**
   * The values sscanf stores from conversion k (0..3) on: conversions are
   * matched left to right, each literal separator must be the next
   * character, and scanning stops at the first failure.
   */
  function Scan(s: string, k: nat): (vals: seq<int>)
    requires k <= 3
    ensures |vals| <= 4 - k
    decreases 3 - k
  {
    match ScanInt(s)
    case None => []
    case Some((v, rest)) =>
      if k == 3 then [v]
      else if rest != [] && rest[0] == Separator(k) then [v] + Scan(rest[1..], k + 1)
      else [v]
  }

  function FieldOr0(vals: seq<int>, i: nat): int { if i < |vals| then vals[i] else 0 }

  /** TimeUtils::parseTime: fields that are not read keep their initial 0. */
  function ParseTime(s: string): int
  {
    var v := Scan(s, 0);
    var hours, minutes, seconds, millis := FieldOr0(v, 0), FieldOr0(v, 1), FieldOr0(v, 2), FieldOr0(v, 3);
    (hours * 3600 + minutes * 60 + seconds) * MicrosPerSecond + millis * 1000
  }

  /**
   * Scanning stops at the first field that does not match; the fields not
   * reached count as 0, and the milliseconds field is taken as a plain integer.
   */
  lemma ParsePartial()
    ensures ParseTime("") == 0
    ensures ParseTime("junk") == 0
  {
  }

  // ---------------------------------------------------------------------
  // Round trip
  // ---------------------------------------------------------------------

  lemma {:induction false} ValueOfPrefix(ds: string, rest: string, j: nat)
    requires j <= |ds|
    ensures ValueOf(ds + rest, 0, j) == ValueOf(ds, 0, j)
    decreases j
  {
    if j > 0 {
      ValueOfPrefix(ds, rest, j - 1);
    }
  }

  lemma {:induction false} ValueOfDigits(n: nat)
    ensures Value(Digits(n)) == n
    decreases n
  {
    if n >= 10 {
      var d := Digits(n / 10);
      ValueOfPrefix(d, [DigitChar(n % 10)], |d|);
      ValueOfDigits(n / 10);
    }
  }

  lemma {:induction false} ZerosValue(zs: string, j: nat)
    requires j <= |zs| && forall i :: 0 <= i < |zs| ==> zs[i] == '0'
    ensures ValueOf(zs, 0, j) == 0
    decreases j
  {
    if j > 0 {
      ZerosValue(zs, j - 1);
    }
  }

  lemma {:induction false} ValueLeadingZeros(zs: string, ds: string, j: nat)
    requires j <= |ds| && forall i :: 0 <= i < |zs| ==> zs[i] == '0'
    ensures ValueOf(zs + ds, 0, |zs| + j) == ValueOf(ds, 0, j)
    decreases j
  {
    if j == 0 {
      ValueOfPrefix(zs, ds, |zs|);
      ZerosValue(zs, |zs|);
    } else {
      ValueLeadingZeros(zs, ds, j - 1);
      assert (zs + ds)[|zs| + j - 1] == ds[j - 1];
    }
  }

  lemma {:induction false} DigitEndOf(ds: string, rest: string, i: nat)
    requires i <= |ds| && forall m :: 0 <= m < |ds| ==> IsDigit(ds[m])
    requires rest == [] || !IsDigit(rest[0])
    ensures DigitEnd(ds + rest, i) == |ds|
    decreases |ds| - i
  {
    if i < |ds| {
      DigitEndOf(ds, rest, i + 1);
    } else if rest != [] {
      assert (ds + rest)[i] == rest[0];
    }
  }

  lemma {:induction false} PadDigits(v: nat, width: nat)
    ensures DigitString(Pad(v, width)) && Value(Pad(v, width)) == v
  {
    var zs, ds := Zeros(width - |Digits(v)|), Digits(v);
    ValueLeadingZeros(zs, ds, |ds|);
    ValueOfDigits(v);
  }

  /** "%d" on a run of digits followed by a non-digit reads exactly that run. */
  lemma {:induction false} ScanDigits(ds: string, rest: string)
    requires DigitString(ds)
    requires rest == [] || !IsDigit(rest[0])
    ensures ScanInt(ds + rest) == Some((Value(ds), rest))
  {
    var s := ds + rest;
    assert s[0] == ds[0];
    assert SpaceEnd(s, 0) == 0;
    DigitEndOf(ds, rest, 0);
    ValueOfPrefix(ds, rest, |ds|);
    assert s[|ds|..] == rest;
  }

  /** Conversion k followed by its separator, then the remaining fields. */
  lemma {:induction false} ScanField(p: string, ch: char, tail: string, k: nat)
    requires DigitString(p) && k < 3 && ch == Separator(k)
    ensures Scan(p + ([ch] + tail), k) == [Value(p)] + Scan(tail, k + 1)
  {
    ScanDigits(p, [ch] + tail);
    assert ([ch] + tail)[1..] == tail;
  }

  lemma {:induction false} ScanLast(p: string)
    requires DigitString(p)
    ensures Scan(p, 3) == [Value(p)]
  {
    ScanDigits(p, []);
    assert p + [] == p;
  }

  /** The values of fields k..3. */
  function Values(ps: seq<string>, k: nat): seq<int>
    requires |ps| == 4 && k <= 3
    decreases 3 - k
  {
    if k == 3 then [Value(ps[3])] else [Value(ps[k])] + Values(ps, k + 1)
  }

  lemma {:induction false} ScanJoined(ps: seq<string>, k: nat)
    requires |ps| == 4 && k <= 3 && forall i :: 0 <= i < 4 ==> DigitString(ps[i])
    ensures Scan(Joined(ps, k), k) == Values(ps, k)
    decreases 3 - k
  {
    if k == 3 {
      ScanLast(ps[3]);
    } else {
      ScanField(ps[k], Separator(k), Joined(ps, k + 1), k);
      ScanJoined(ps, k + 1);
    }
  }

  /** sscanf reads back the four non-negative fields of a rendering. */
  lemma {:induction false} ScanRender(c: Clock)
    requires c.hours >= 0 && c.minutes >= 0 && c.seconds >= 0 && c.millis >= 0
    ensures Scan(Render(c), 0) == [c.hours, c.minutes, c.seconds, c.millis]
  {
    PadDigits(c.hours, 2);
    PadDigits(c.minutes, 2);
    PadDigits(c.seconds, 2);
    PadDigits(c.millis, 3);
    var ps := Fields(c);
    var vs := [c.hours, c.minutes, c.seconds, c.millis];
    assert DigitString(ps[0]) && DigitString(ps[1]) && DigitString(ps[2]) && DigitString(ps[3]);
    assert Value(ps[0]) == vs[0] && Value(ps[1]) == vs[1] && Value(ps[2]) == vs[2] && Value(ps[3]) == vs[3];
    ScanJoined(ps, 0);
    ValuesAre(ps, vs, 0);
    assert vs[0..] == vs;
  }

  lemma {:induction false} ValuesAre(ps: seq<string>, vs: seq<int>, k: nat)
    requires |ps| == 4 && |vs| == 4 && k <= 3
    requires Value(ps[0]) == vs[0] && Value(ps[1]) == vs[1] && Value(ps[2]) == vs[2] && Value(ps[3]) == vs[3]
    ensures Values(ps, k) == vs[k..]
    decreases 3 - k
  {
    if k < 3 {
      ValuesAre(ps, vs, k + 1);
      assert vs[k..] == [vs[k]] + vs[k + 1..];
    } else {
      assert vs[3..] == [vs[3]];
    }
  }

  /**
   * parseTime inverts formatTime up to the dropped sub-millisecond digits,
   * for every non-negative timestamp whose hour count fits in an int.
   */
  lemma {:induction false} ParseFormatRoundTrip(micros: int)
    requires 0 <= micros && micros / 3600000000 < 0x8000_0000
    ensures ParseTime(FormatTime(micros)) == micros - micros % 1000
  {
    var c := ClockOf(micros);
    ScanRender(c);
    assert c.hours == micros / 3600000000;
  }

  // ---------------------------------------------------------------------
  // Frame / microsecond conversions
  // ---------------------------------------------------------------------

  /** TimeUtils::framesToMicros: int64 arithmetic with C++ division. */
  function FramesToMicros(frames: int, fps: int): (micros: int)
    requires fps != 0
    ensures frames >= 0 && fps > 0 ==> micros * fps <= frames * MicrosPerSecond < (micros + 1) * fps
  {
    CDiv(frames * MicrosPerSecond, fps)
  }

  /**
   * TimeUtils::microsToFrames: micros * fps in (wrapping) int64 arithmetic,
   * the quotient narrowed to int.
   */
  function MicrosToFrames(micros: int, fps: int): (frames: int)
    ensures -0x8000_0000 <= frames < 0x8000_0000
    ensures micros >= 0 && fps > 0 && micros * fps / MicrosPerSecond < 0x8000_0000 ==>
      frames * MicrosPerSecond <= micros * fps < (frames + 1) * MicrosPerSecond
  {
    ToInt32(CDiv(ToInt64(micros * fps), MicrosPerSecond))
  }

  /** A product past the int64 range wraps before the division: 2^62 microseconds at 4 fps count as 0 frames. */
  lemma MicrosToFramesWraps()
    ensures MicrosToFrames(0x4000_0000_0000_0000, 4) == 0
  {
  }

  lemma {:induction false} DivBelow(a: int, b: int, c: int)
    requires a >= 0 && c > 0 && a <= b * c
    ensures a / c <= b
  {
  }

  /**
   * Converting frames to microseconds and back never gains a frame, and is
   * exact whenever fps divides frames * 1000000.
   */
  lemma {:induction false} FramesRoundTrip(frames: int, fps: int)
    requires 0 <= frames < 0x8000_0000 && 0 < fps < 0x8000_0000
    ensures MicrosToFrames(FramesToMicros(frames, fps), fps) <= frames
    ensures (frames * MicrosPerSecond) % fps == 0 ==> MicrosToFrames(FramesToMicros(frames, fps), fps) == frames
  {
    var total := frames * MicrosPerSecond;
    var m := FramesToMicros(frames, fps);
    assert m == total / fps;
    var back := m * fps;
    assert 0 <= back <= total by {
      assert m >= 0;
    }
    DivBelow(back, frames, MicrosPerSecond);
    var q := back / MicrosPerSecond;
    assert 0 <= q <= frames;
    assert CDiv(back, MicrosPerSecond) == q;
    assert MicrosToFrames(m, fps) == q;
    if total % fps == 0 {
      assert back == total;
      DivModUnique(total, MicrosPerSecond, frames, 0);
    }
  }
}
