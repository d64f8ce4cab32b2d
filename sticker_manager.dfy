// Stickers (StickerManager.kt): the manager's list of stickers with its id
// counter, and what renderFrame decides for each sticker at a given time:
// whether it shows, its entry and exit progress, the easing curves, and the
// alpha, scale, rotation and offset each animation gives it. The drawing
// (Canvas, Paint) is the platform's: a rendered frame is modelled as the
// sequence of sticker draws made on a copy of the input bitmap.
module Stickers {
  import opened Common
  import opened Lists

  datatype StickerAnimation =
    | NoAnimation | FadeIn | FadeOut | PopIn | PopOut | Bounce | Spin | Shake | Pulse

  /**
   * A Sticker: x and y are fractions of the frame, scale and rotation
   * (degrees) apply around its centre, times are milliseconds (Long).
   */
  datatype Sticker = Sticker(
    id: int,
    bitmap: Bitmap,
    x: real,
    y: real,
    scale: real,
    rotation: real,
    alpha: real,
    startTimeMs: int,
    endTimeMs: int,
    animation: StickerAnimation,
    animationDurationMs: int)

  const LongMax: int := 0x7FFF_FFFF_FFFF_FFFF

  function StickerId(s: Sticker): int { s.id }

  /** The sticker addSticker builds: the data class defaults around the given id, bitmap and place. */
  function NewSticker(id: int, bitmap: Bitmap, x: real, y: real): (s: Sticker)
    ensures s.id == id && s.bitmap == bitmap && s.x == x && s.y == y
    ensures s.scale == 1.0 && s.rotation == 0.0 && s.alpha == 1.0
    ensures s.startTimeMs == 0 && s.endTimeMs == LongMax
    ensures s.animation == NoAnimation && s.animationDurationMs == 500
  {
    Sticker(id, bitmap, x, y, 1.0, 0.0, 1.0, 0, LongMax, NoAnimation, 500)
  }

  // ---------------------------------------------------------------------
  // visibility and progress
  // ---------------------------------------------------------------------

  /** renderFrame skips a sticker when currentTimeMs < startTimeMs or currentTimeMs > endTimeMs. */
  predicate Visible(s: Sticker, t: int)
  {
    s.startTimeMs <= t <= s.endTimeMs
  }

  /** A zero animation duration at the sticker's first instant: elapsed / duration is 0 / 0, NaN. */
  predicate EntryNaN(s: Sticker, t: int)
  {
    s.animationDurationMs == 0 && ToInt64(t - s.startTimeMs) == 0
  }

  /** A zero animation duration at the sticker's last instant: remaining / duration is 0 / 0, NaN. */
  predicate ExitNaN(s: Sticker, t: int)
  {
    s.animationDurationMs == 0 && ToInt64(s.endTimeMs - t) == 0
  }

  /**
   * calculateAnimationProgress: (elapsed.toFloat() / animationDurationMs).coerceIn(0f, 1f).
   * A zero duration gives +∞ or −∞, clamped to 1 or 0, and NaN at 0 / 0,
   * which coerceIn passes through; 0 stands for that NaN (EntryNaN).
   */
  function EntryProgress(s: Sticker, t: int): (p: real)
    ensures 0.0 <= p <= 1.0
    ensures s.animationDurationMs == 0 ==> (p == 1.0 <==> ToInt64(t - s.startTimeMs) > 0)
  {
    var elapsed := ToInt64(t - s.startTimeMs);
    if s.animationDurationMs == 0 then (if elapsed > 0 then 1.0 else 0.0)
    else ClampReal((elapsed as real) / (s.animationDurationMs as real), 0.0, 1.0)
  }

  /**
   * calculateOutProgress: (1 - remaining.toFloat() / animationDurationMs).coerceIn(0f, 1f).
   * A zero duration gives 1 − ∞ or 1 + ∞, clamped to 0 or 1, and NaN at
   * 0 / 0; 1 stands for that NaN (ExitNaN).
   */
  function ExitProgress(s: Sticker, t: int): (p: real)
    ensures 0.0 <= p <= 1.0
    ensures s.animationDurationMs == 0 ==> (p == 0.0 <==> ToInt64(s.endTimeMs - t) > 0)
  {
    var remaining := ToInt64(s.endTimeMs - t);
    if s.animationDurationMs == 0 then (if remaining > 0 then 0.0 else 1.0)
    else ClampReal(1.0 - (remaining as real) / (s.animationDurationMs as real), 0.0, 1.0)
  }

  /**
   * Entry progress is 0 when the sticker starts and exit progress 1 when it
   * ends, whatever the animation duration; with a positive duration, entry
   * progress is 1 once that duration has passed and exit progress 0 until
   * that duration before the end.
   */
  lemma ProgressEnds(s: Sticker, t: int)
    ensures t == s.startTimeMs ==> EntryProgress(s, t) == 0.0
    ensures t == s.endTimeMs ==> ExitProgress(s, t) == 1.0
    ensures s.animationDurationMs >= 1 && IsLong(t - s.startTimeMs) && t >= s.startTimeMs + s.animationDurationMs
      ==> EntryProgress(s, t) == 1.0
    ensures s.animationDurationMs >= 1 && IsLong(s.endTimeMs - t) && t <= s.endTimeMs - s.animationDurationMs
      ==> ExitProgress(s, t) == 0.0
  {
    if s.animationDurationMs >= 1 {
      QuotientAtLeastOne(t - s.startTimeMs, s.animationDurationMs);
      QuotientAtLeastOne(s.endTimeMs - t, s.animationDurationMs);
    }
  }

  // ---------------------------------------------------------------------
  // easing
  // ---------------------------------------------------------------------

  const C1: real := 1.70158
  const C3: real := C1 + 1.0

  /** easeOutBack: 1 + c3 (t - 1)^3 + c1 (t - 1)^2, overshooting 1 before it settles. */
  function EaseOutBack(t: real): real
  {
    var u := t - 1.0;
    1.0 + C3 * (u * u * u) + C1 * (u * u)
  }

  /** easeInBack: c3 t^3 - c1 t^2, dipping below 0 before it rises. */
  function EaseInBack(t: real): real
  {
    C3 * t * t * t - C1 * t * t
  }

  /** Both curves run from 0 at t = 0 to 1 at t = 1. */
  lemma EaseEnds()
    ensures EaseOutBack(0.0) == 0.0 && EaseOutBack(1.0) == 1.0
    ensures EaseInBack(0.0) == 0.0 && EaseInBack(1.0) == 1.0
  {
  }

  /** The two curves mirror each other: easeOutBack(t) = 1 - easeInBack(1 - t). */
  lemma {:induction false} EaseMirror(t: real)
    ensures EaseOutBack(t) == 1.0 - EaseInBack(1.0 - t)
  {
    var u := t - 1.0;
    var v := 1.0 - t;
    assert v == -u;
    assert v * v == u * u;
    assert v * v * v == -(u * u * u);
    assert C3 * v * v * v == C3 * (v * v * v);
    assert C1 * v * v == C1 * (v * v);
  }

  // ---------------------------------------------------------------------
  // what renderFrame draws
  // ---------------------------------------------------------------------

  /**
   * The platform's sine curves the animations sample, as functions of the
   * entry progress p: bounce is sin(p * PI * 3), shake sin(p * PI * 10) and
   * pulse sin(p * PI * 4).
   */
  datatype Waves = Waves(bounce: real -> real, shake: real -> real, pulse: real -> real)

  function RealAbs(v: real): real { if v < 0.0 then -v else v }

  /**
   * One sticker draw: the bitmap, where its centre goes, the rotation and
   * scale about it, the paint alpha. nan marks a draw whose animated value
   * (alpha, scale, rotation or offset, by the animation) is NaN; that field
   * then holds the value at progress 0 on entry or 1 on exit, and the paint
   * alpha is exact, since NaN.toInt() is 0.
   */
  datatype StickerDraw = StickerDraw(
    bitmap: Bitmap, posX: real, posY: real, rotation: real, scale: real,
    alpha: real, paintAlpha: int, left: real, top: real, nan: bool)

  /** The alpha after the animation: the fades scale the sticker's alpha, every other kind keeps it. */
  function DrawAlpha(s: Sticker, t: int): (a: real)
    ensures s.animation != FadeIn && s.animation != FadeOut ==> a == s.alpha
    ensures s.alpha >= 0.0 ==> 0.0 <= a <= s.alpha
  {
    match s.animation
    case FadeIn => ScaleAlpha(EntryProgress(s, t), s.alpha)
    case FadeOut => ScaleAlpha(1.0 - ExitProgress(s, t), s.alpha)
    case _ => s.alpha
  }

  /** The scale after the animation: POP_IN eases in, POP_OUT eases out, PULSE wobbles by a tenth. */
  function DrawScale(s: Sticker, t: int, waves: Waves): real
  {
    match s.animation
    case PopIn => s.scale * EaseOutBack(EntryProgress(s, t))
    case PopOut => s.scale * (1.0 - EaseInBack(ExitProgress(s, t)))
    case Pulse => s.scale * (1.0 + 0.1 * waves.pulse(EntryProgress(s, t)))
    case _ => s.scale
  }

  /** The animations that read the entry progress. */
  predicate ReadsEntry(a: StickerAnimation)
  {
    a == FadeIn || a == PopIn || a == Bounce || a == Spin || a == Shake || a == Pulse
  }

  /** The animations that read the exit progress. */
  predicate ReadsExit(a: StickerAnimation)
  {
    a == FadeOut || a == PopOut
  }

  /**
   * The draw renderFrame makes for a visible sticker over a frame of the
   * given size; only a zero animation duration can make it NaN.
   */
  function DrawFor(s: Sticker, t: int, width: int, height: int, waves: Waves): (d: StickerDraw)
    ensures d.nan ==> s.animationDurationMs == 0
    ensures d.nan <==> (EntryNaN(s, t) && ReadsEntry(s.animation)) || (ExitNaN(s, t) && ReadsExit(s.animation))
  {
    var p := EntryProgress(s, t);
    var rotation := if s.animation == Spin then s.rotation + 360.0 * p else s.rotation;
    var offsetX := if s.animation == Shake then 10.0 * waves.shake(p) else 0.0;
    var offsetY := if s.animation == Bounce then -30.0 * RealAbs(waves.bounce(p)) else 0.0;
    var alpha := DrawAlpha(s, t);
    StickerDraw(s.bitmap, s.x * (width as real) + offsetX, s.y * (height as real) + offsetY,
                rotation, DrawScale(s, t, waves), alpha, PaintAlpha(alpha),
                -(s.bitmap.width as real) / 2.0, -(s.bitmap.height as real) / 2.0,
                (EntryNaN(s, t) && ReadsEntry(s.animation)) || (ExitNaN(s, t) && ReadsExit(s.animation)))
  }

  /**
   * What the animations give at their ends: POP_IN grows from nothing to the
   * sticker's scale, POP_OUT shrinks from it to nothing, SPIN turns one full
   * circle, FADE_IN starts and FADE_OUT ends invisible.
   */
  lemma {:induction false} AnimationEnds(s: Sticker, t: int, width: int, height: int, waves: Waves)
    requires s.animationDurationMs >= 1
    ensures var d := DrawFor(s, t, width, height, waves);
      && (s.animation == PopIn && t == s.startTimeMs ==> d.scale == 0.0)
      && (s.animation == PopIn && EntryProgress(s, t) == 1.0 ==> d.scale == s.scale)
      && (s.animation == PopOut && ExitProgress(s, t) == 0.0 ==> d.scale == s.scale)
      && (s.animation == PopOut && t == s.endTimeMs ==> d.scale == 0.0)
      && (s.animation == Spin && EntryProgress(s, t) == 1.0 ==> d.rotation == s.rotation + 360.0)
      && (s.animation == FadeIn && t == s.startTimeMs ==> d.alpha == 0.0 && d.paintAlpha == 0)
      && (s.animation == FadeOut && t == s.endTimeMs ==> d.alpha == 0.0 && d.paintAlpha == 0)
  {
    ProgressEnds(s, t);
    EaseEnds();
    TruncWithin(0.0, 0, 0);
  }

  /** Without an animation a sticker draws centred at its place with its own scale, rotation and alpha. */
  lemma StillSticker(s: Sticker, t: int, width: int, height: int, waves: Waves)
    requires s.animation == NoAnimation
    ensures var d := DrawFor(s, t, width, height, waves);
      d.posX == s.x * (width as real) && d.posY == s.y * (height as real)
      && d.scale == s.scale && d.rotation == s.rotation && d.alpha == s.alpha && !d.nan
  {
  }

  /**
   * A zero animation duration skips the animation: strictly inside its time
   * range the sticker draws as it does once the entry animation is over and
   * before the exit animation starts. At its first instant the entry
   * animations, and at its last the exit ones, draw a NaN; a fade then
   * paints with alpha 0.
   */
  lemma {:induction false} ZeroDurationSkips(s: Sticker, t: int, width: int, height: int, waves: Waves)
    requires s.animationDurationMs == 0
    requires IsLong(t - s.startTimeMs) && IsLong(s.endTimeMs - t)
    ensures var d := DrawFor(s, t, width, height, waves);
      && (s.startTimeMs < t < s.endTimeMs ==>
            !d.nan && EntryProgress(s, t) == 1.0 && ExitProgress(s, t) == 0.0
            && (s.animation == PopIn || s.animation == PopOut ==> d.scale == s.scale)
            && (s.animation == Spin ==> d.rotation == s.rotation + 360.0)
            && (s.animation == FadeIn || s.animation == FadeOut ==> d.alpha == s.alpha))
      && (t == s.startTimeMs && ReadsEntry(s.animation) ==> d.nan)
      && (t == s.endTimeMs && ReadsExit(s.animation) ==> d.nan)
      && (d.nan && (s.animation == FadeIn || s.animation == FadeOut) ==> d.paintAlpha == 0)
  {
    EaseEnds();
    TruncWithin(0.0, 0, 0);
  }

  // ---------------------------------------------------------------------
  // renderFrame: every visible sticker, in list order
  // ---------------------------------------------------------------------

  /** The draws the stickers of s make at time t, in list order, the invisible ones skipped. */
  function Draws(s: seq<Sticker>, t: int, width: int, height: int, waves: Waves): seq<StickerDraw>
  {
    if s == [] then []
    else
      var before := Draws(s[..|s| - 1], t, width, height, waves);
      var last := s[|s| - 1];
      if Visible(last, t) then before + [DrawFor(last, t, width, height, waves)] else before
  }

  /** The stickers of s visible at time t, in list order. */
  function VisibleAt(s: seq<Sticker>, t: int): (r: seq<Sticker>)
    ensures |r| <= |s|
    ensures forall u :: u in r <==> u in s && Visible(u, t)
  {
    if s == [] then []
    else VisibleAt(s[..|s| - 1], t) + (if Visible(s[|s| - 1], t) then [s[|s| - 1]] else [])
  }

  /** The draws are exactly one per visible sticker, each that sticker's draw, in list order. */
  lemma {:induction false} DrawsAreVisible(s: seq<Sticker>, t: int, width: int, height: int, waves: Waves)
    ensures var v := VisibleAt(s, t);
      |Draws(s, t, width, height, waves)| == |v|
      && forall i :: 0 <= i < |v| ==> Draws(s, t, width, height, waves)[i] == DrawFor(v[i], t, width, height, waves)
  {
    if s != [] {
      var init := s[..|s| - 1];
      DrawsAreVisible(init, t, width, height, waves);
    }
  }

  /** Drawing one more sticker of s adds its draw when it is visible. */
  lemma DrawsStep(s: seq<Sticker>, k: int, t: int, width: int, height: int, waves: Waves)
    requires 0 <= k < |s|
    ensures Draws(s[..k + 1], t, width, height, waves)
      == Draws(s[..k], t, width, height, waves) + (if Visible(s[k], t) then [DrawFor(s[k], t, width, height, waves)] else [])
  {
    var prefix := s[..k + 1];
    assert prefix[..k] == s[..k] && prefix[k] == s[k];
  }

  // ---------------------------------------------------------------------
  // StickerManager
  // ---------------------------------------------------------------------

  /** In a list with distinct ids the sticker at k is the only one with its id. */
  lemma OnlyWithId(s: seq<Sticker>, k: int)
    requires AscendingBy(s, StickerId) && 0 <= k < |s|
    ensures forall i :: 0 <= i < |s| ==> (s[i].id == s[k].id <==> i == k)
  {
    forall i | 0 <= i < |s| && s[i].id == s[k].id ensures i == k {
      assert StickerId(s[i]) == StickerId(s[k]);
      AscendingUnique(s, StickerId, i, k);
    }
  }

  /** A sticker with the counter's id goes after every other and is the one found by its id. */
  lemma FreshIdAppends(s: seq<Sticker>, x: Sticker, n: int)
    requires AscendingBy(s, StickerId) && (forall u :: u in s ==> 1 <= u.id < n) && x.id == n >= 1
    ensures AscendingBy(s + [x], StickerId) && forall u :: u in s + [x] ==> 1 <= u.id < n + 1
    ensures IndexWhere(s + [x], (u: Sticker) => u.id == n) == Some(|s|)
  {
    var l := s + [x];
    forall i | 0 <= i < |s| ensures StickerId(s[i]) < StickerId(x) && l[i] == s[i] {
      assert s[i] in s;
    }
    AscendingSnoc(s, x, StickerId);
    assert l[|s|] == x;
  }

  class StickerManager {
    var stickers: seq<Sticker>
    var nextId: int

    /** Ids come from the counter, so they are positive, below it, and ascend along the list. */
    ghost predicate Valid()
      reads this
    {
      nextId >= 1 && AscendingBy(stickers, StickerId)
      && forall s :: s in stickers ==> 1 <= s.id < nextId
    }

    constructor ()
      ensures Valid() && stickers == [] && nextId == 1
    {
      stickers := [];
      nextId := 1;
    }

    /** addSticker: the next id, the defaults, appended at the end. */
    method AddSticker(bitmap: Bitmap, x: real, y: real) returns (sticker: Sticker)
      requires Valid()
      modifies this
      ensures Valid()
      ensures sticker == NewSticker(old(nextId), bitmap, x, y)
      ensures stickers == old(stickers) + [sticker] && nextId == old(nextId) + 1
      ensures GetSticker(sticker.id) == Some(sticker)
    {
      sticker := NewSticker(nextId, bitmap, x, y);
      FreshIdAppends(stickers, sticker, nextId);
      nextId := nextId + 1;
      stickers := stickers + [sticker];
    }

    /** removeSticker: every sticker with the id goes, the others stay in order. */
    method RemoveSticker(id: int)
      requires Valid()
      modifies this`stickers
      ensures Valid()
      ensures stickers == Filter(old(stickers), (s: Sticker) => s.id != id)
      ensures GetSticker(id) == None
    {
      FilterAscending(stickers, (s: Sticker) => s.id != id, StickerId);
      stickers := Filter(stickers, (s: Sticker) => s.id != id);
    }

    /** updatePosition: the sticker with the id moves to (x, y); an unknown id changes nothing. */
    method UpdatePosition(id: int, x: real, y: real)
      requires Valid()
      modifies this`stickers
      ensures Valid() && |stickers| == |old(stickers)|
      ensures forall i :: 0 <= i < |stickers| ==>
        stickers[i] == if old(stickers)[i].id == id then old(stickers)[i].(x := x, y := y) else old(stickers)[i]
    {
      match IndexWhere(stickers, (s: Sticker) => s.id == id)
      case None =>
      case Some(k) =>
        OnlyWithId(stickers, k);
        stickers := stickers[k := stickers[k].(x := x, y := y)];
    }

    /** updateScale: the sticker with the id gets the scale coerced into [0.1, 5]. */
    method UpdateScale(id: int, scale: real)
      requires Valid()
      modifies this`stickers
      ensures Valid() && |stickers| == |old(stickers)|
      ensures forall i :: 0 <= i < |stickers| ==>
        stickers[i] == if old(stickers)[i].id == id then old(stickers)[i].(scale := ClampReal(scale, 0.1, 5.0))
                       else old(stickers)[i]
    {
      match IndexWhere(stickers, (s: Sticker) => s.id == id)
      case None =>
      case Some(k) =>
        OnlyWithId(stickers, k);
        stickers := stickers[k := stickers[k].(scale := ClampReal(scale, 0.1, 5.0))];
    }

    /** updateRotation: the sticker with the id gets the rotation. */
    method UpdateRotation(id: int, rotation: real)
      requires Valid()
      modifies this`stickers
      ensures Valid() && |stickers| == |old(stickers)|
      ensures forall i :: 0 <= i < |stickers| ==>
        stickers[i] == if old(stickers)[i].id == id then old(stickers)[i].(rotation := rotation) else old(stickers)[i]
    {
      match IndexWhere(stickers, (s: Sticker) => s.id == id)
      case None =>
      case Some(k) =>
        OnlyWithId(stickers, k);
        stickers := stickers[k := stickers[k].(rotation := rotation)];
    }

    /** setTimeRange: the sticker with the id shows from startMs to endMs. */
    method SetTimeRange(id: int, startMs: int, endMs: int)
      requires Valid()
      modifies this`stickers
      ensures Valid() && |stickers| == |old(stickers)|
      ensures forall i :: 0 <= i < |stickers| ==>
        stickers[i] == if old(stickers)[i].id == id then old(stickers)[i].(startTimeMs := startMs, endTimeMs := endMs)
                       else old(stickers)[i]
    {
      match IndexWhere(stickers, (s: Sticker) => s.id == id)
      case None =>
      case Some(k) =>
        OnlyWithId(stickers, k);
        stickers := stickers[k := stickers[k].(startTimeMs := startMs, endTimeMs := endMs)];
    }

    /** setAnimation: the sticker with the id gets the animation and its duration. */
    method SetAnimation(id: int, animation: StickerAnimation, durationMs: int)
      requires Valid()
      modifies this`stickers
      ensures Valid() && |stickers| == |old(stickers)|
      ensures forall i :: 0 <= i < |stickers| ==>
        stickers[i] == if old(stickers)[i].id == id then old(stickers)[i].(animation := animation, animationDurationMs := durationMs)
                       else old(stickers)[i]
    {
      match IndexWhere(stickers, (s: Sticker) => s.id == id)
      case None =>
      case Some(k) =>
        OnlyWithId(stickers, k);
        stickers := stickers[k := stickers[k].(animation := animation, animationDurationMs := durationMs)];
    }

    /** The sticker with the id, if there is one. */
    function GetSticker(id: int): (r: Option<Sticker>)
      reads this
      ensures r.Some? <==> exists i :: 0 <= i < |stickers| && stickers[i].id == id
      ensures r.Some? ==> r.value in stickers && r.value.id == id
    {
      match IndexWhere(stickers, (s: Sticker) => s.id == id)
      case None => None
      case Some(k) => Some(stickers[k])
    }

    /** renderFrame: each visible sticker, in list order, drawn onto the copy of the frame. */
    method RenderFrame(drawn: seq<StickerDraw>, t: int, width: int, height: int, waves: Waves)
      returns (result: seq<StickerDraw>)
      ensures result == drawn + Draws(stickers, t, width, height, waves)
    {
      result := drawn;
      var k := 0;
      while k < |stickers|
        invariant 0 <= k <= |stickers|
        invariant result == drawn + Draws(stickers[..k], t, width, height, waves)
      {
        DrawsStep(stickers, k, t, width, height, waves);
        var sticker := stickers[k];
        k := k + 1;
        if t < sticker.startTimeMs || t > sticker.endTimeMs {
          continue;
        }
        result := result + [DrawFor(sticker, t, width, height, waves)];
      }
      assert stickers[..k] == stickers;
    }

    /** clear: no stickers; the id counter goes on from where it was. */
    method Clear()
      requires Valid()
      modifies this`stickers
      ensures Valid() && stickers == []
    {
      stickers := [];
    }
  }
}
