// Text overlays (TextOverlay.kt): TextOverlayManager's list of overlays
// with its id counter, and what TextRenderer decides for an overlay at a
// given time: whether it shows, its entry and exit progress, and the alpha,
// position, size and text each animation gives it. The drawing itself
// (Paint, Typeface, Canvas) is the platform's: a rendered bitmap is modelled
// as the sequence of text draws made on it.
module TextOverlays {
  import opened Common
  import opened Lists

  datatype TextAnimation =
    | NoAnimation | FadeIn | FadeOut | FadeInOut
    | SlideLeft | SlideRight | SlideUp | SlideDown
    | ScaleUp | ScaleDown | Typewriter | Bounce

  /**
   * The fields of a TextOverlay that decide when and where its text appears;
   * x and y are fractions of the frame, times are milliseconds (Long).
   */
  datatype TextOverlay = TextOverlay(
    id: int,
    text: string,
    x: real,
    y: real,
    fontSize: real,
    alpha: real,
    startTimeMs: int,
    endTimeMs: int,
    animation: TextAnimation,
    animationDurationMs: int)

  /** The overlay addText builds: the data class defaults, and endTimeMs = startTimeMs + durationMs as Long. */
  function NewOverlay(id: int, text: string, x: real, y: real, startTimeMs: int, durationMs: int): (o: TextOverlay)
    ensures o.id == id && o.text == text && o.x == x && o.y == y && o.startTimeMs == startTimeMs
    ensures IsLong(o.endTimeMs) && (IsLong(startTimeMs + durationMs) ==> o.endTimeMs == startTimeMs + durationMs)
    ensures o.fontSize == 48.0 && o.alpha == 1.0 && o.animation == NoAnimation && o.animationDurationMs == 500
  {
    TextOverlay(id, text, x, y, 48.0, 1.0, startTimeMs, ToInt64(startTimeMs + durationMs), NoAnimation, 500)
  }

  // ---------------------------------------------------------------------
  // visibility and progress
  // ---------------------------------------------------------------------

  /** render draws only from startTimeMs to endTimeMs, both included. */
  predicate Visible(o: TextOverlay, t: int)
  {
    o.startTimeMs <= t <= o.endTimeMs
  }

  /** A zero animation duration at the overlay's first instant: elapsed / duration is 0 / 0, NaN. */
  predicate EntryNaN(o: TextOverlay, t: int)
  {
    o.animationDurationMs == 0 && ToInt64(t - o.startTimeMs) == 0
  }

  /** A zero animation duration at the overlay's last instant: remaining / duration is 0 / 0, NaN. */
  predicate ExitNaN(o: TextOverlay, t: int)
  {
    o.animationDurationMs == 0 && ToInt64(o.endTimeMs - t) == 0
  }

  /**
   * calculateAnimationProgress: (elapsed.toFloat() / animationDurationMs).coerceIn(0f, 1f).
   * A zero duration gives +∞ or −∞, clamped to 1 or 0, and NaN at 0 / 0,
   * which coerceIn passes through; 0 stands for that NaN (EntryNaN).
   */
  function EntryProgress(o: TextOverlay, t: int): (p: real)
    ensures 0.0 <= p <= 1.0
    ensures o.animationDurationMs == 0 ==> (p == 1.0 <==> ToInt64(t - o.startTimeMs) > 0)
  {
    var elapsed := ToInt64(t - o.startTimeMs);
    if o.animationDurationMs == 0 then (if elapsed > 0 then 1.0 else 0.0)
    else ClampReal((elapsed as real) / (o.animationDurationMs as real), 0.0, 1.0)
  }

  /**
   * calculateOutProgress: (1 - remaining.toFloat() / animationDurationMs).coerceIn(0f, 1f).
   * A zero duration gives 1 − ∞ or 1 + ∞, clamped to 0 or 1, and NaN at
   * 0 / 0; 1 stands for that NaN (ExitNaN).
   */
  function ExitProgress(o: TextOverlay, t: int): (p: real)
    ensures 0.0 <= p <= 1.0
    ensures o.animationDurationMs == 0 ==> (p == 0.0 <==> ToInt64(o.endTimeMs - t) > 0)
  {
    var remaining := ToInt64(o.endTimeMs - t);
    if o.animationDurationMs == 0 then (if remaining > 0 then 0.0 else 1.0)
    else ClampReal(1.0 - (remaining as real) / (o.animationDurationMs as real), 0.0, 1.0)
  }

  /**
   * Entry progress is 0 when the overlay starts and exit progress 1 when it
   * ends, whatever the animation duration; with a positive duration, entry
   * progress is 1 once that duration has passed and exit progress 0 until
   * that duration before the end.
   */
  lemma ProgressEnds(o: TextOverlay, t: int)
    ensures t == o.startTimeMs ==> EntryProgress(o, t) == 0.0
    ensures t == o.endTimeMs ==> ExitProgress(o, t) == 1.0
    ensures o.animationDurationMs >= 1 && IsLong(t - o.startTimeMs) && t >= o.startTimeMs + o.animationDurationMs
      ==> EntryProgress(o, t) == 1.0
    ensures o.animationDurationMs >= 1 && IsLong(o.endTimeMs - t) && t <= o.endTimeMs - o.animationDurationMs
      ==> ExitProgress(o, t) == 0.0
  {
    if o.animationDurationMs >= 1 {
      QuotientAtLeastOne(t - o.startTimeMs, o.animationDurationMs);
      QuotientAtLeastOne(o.endTimeMs - t, o.animationDurationMs);
    }
  }

  // ---------------------------------------------------------------------
  // what render draws
  // ---------------------------------------------------------------------

  predicate IsFade(a: TextAnimation) { a == FadeIn || a == FadeOut || a == FadeInOut }

  /** The factor a fade applies to the overlay's alpha: entry progress, one minus exit progress, or the smaller of the two. */
  function FadeFactor(o: TextOverlay, t: int): (f: real)
    requires IsFade(o.animation)
    ensures 0.0 <= f <= 1.0
  {
    match o.animation
    case FadeIn => EntryProgress(o, t)
    case FadeOut => 1.0 - ExitProgress(o, t)
    case FadeInOut => MinReal(EntryProgress(o, t), 1.0 - ExitProgress(o, t))
  }

  /**
   * The alpha after the animation: the fades scale the overlay's alpha, the
   * other kinds keep it, so it stays between 0 and the overlay's own alpha.
   */
  function DrawAlpha(o: TextOverlay, t: int): (a: real)
    ensures !IsFade(o.animation) ==> a == o.alpha
    ensures o.alpha >= 0.0 ==> 0.0 <= a <= o.alpha
  {
    if IsFade(o.animation) then ScaleAlpha(FadeFactor(o, t), o.alpha) else o.alpha
  }

  /** Fade-in starts invisible and fade-out ends invisible. */
  lemma DrawAlphaEnds(o: TextOverlay, t: int)
    ensures t == o.startTimeMs && (o.animation == FadeIn || o.animation == FadeInOut) ==> DrawAlpha(o, t) == 0.0
    ensures t == o.endTimeMs && (o.animation == FadeOut || o.animation == FadeInOut) ==> DrawAlpha(o, t) == 0.0
  {
    ProgressEnds(o, t);
  }

  /** text.take(n): the first n characters, or all of them. */
  function Take(s: string, n: int): (r: string)
    requires n >= 0
    ensures |r| == Min(n, |s|) && r == s[..|r|]
  {
    s[..Min(n, |s|)]
  }

  /** The typewriter's character count: (length * progress).toInt(), between 0 and the length. */
  function TypewriterCount(length: nat, progress: real): (c: int)
    requires 0.0 <= progress <= 1.0
    ensures 0 <= c <= length
  {
    PosScaleTrunc(length, progress);
    FloatToInt((length as real) * progress)
  }

  /** The typewriter's text: text.take(count), the first TypewriterCount characters. */
  function TypewriterText(text: string, progress: real): (r: string)
    requires 0.0 <= progress <= 1.0
    ensures r <= text && |r| == TypewriterCount(|text|, progress)
  {
    Take(text, TypewriterCount(|text|, progress))
  }

  /** The typewriter shows nothing at progress 0 and everything at progress 1. */
  lemma TypewriterEnds(text: string)
    requires |text| < 0x8000_0000
    ensures TypewriterText(text, 0.0) == []
    ensures TypewriterText(text, 1.0) == text
  {
    TypewriterCountEnds(|text|);
  }

  lemma TypewriterCountEnds(length: nat)
    requires length < 0x8000_0000
    ensures TypewriterCount(length, 0.0) == 0 && TypewriterCount(length, 1.0) == length
  {
    var n := length as real;
    assert n * 0.0 == 0.0 && n * 1.0 == n;
    TruncWithin(0.0, 0, 0);
    TruncWithin(n, length, length);
  }

  /**
   * One text draw: what is drawn where, with which alpha and text size. nan
   * marks a draw whose animated value (alpha, position or size, by the
   * animation) is NaN; that field then holds the value at progress 0 on
   * entry or 1 on exit, and the paint alpha is exact, since NaN.toInt() is 0.
   */
  datatype TextDraw = TextDraw(text: string, posX: real, posY: real, alpha: real, paintAlpha: int, textSize: real, nan: bool)

  /**
   * The animations a NaN entry progress reaches. The typewriter is not
   * among them: (length * NaN).toInt() is 0, the count progress 0 gives.
   */
  predicate NaNOnEntry(a: TextAnimation)
  {
    a != NoAnimation && a != FadeOut && a != Typewriter
  }

  /** The animations that read the exit progress. */
  predicate NaNOnExit(a: TextAnimation)
  {
    a == FadeOut || a == FadeInOut
  }

  /**
   * render for a visible overlay over a width x height frame. bounceCurve
   * stands for progress -> Math.sin(progress * Math.PI * 3).
   */
  function RenderDraw(o: TextOverlay, t: int, width: int, height: int, bounceCurve: real -> real): (d: TextDraw)
    ensures d.nan ==> o.animationDurationMs == 0
    ensures d.nan <==> (EntryNaN(o, t) && NaNOnEntry(o.animation)) || (ExitNaN(o, t) && NaNOnExit(o.animation))
  {
    var w, h := width as real, height as real;
    var p := EntryProgress(o, t);
    var posX := match o.animation
      case SlideLeft => w + (o.x * w - w) * p
      case SlideRight => -w + (o.x * w + w) * p
      case _ => o.x * w;
    var posY := match o.animation
      case SlideUp => h + (o.y * h - h) * p
      case SlideDown => -o.fontSize + (o.y * h + o.fontSize) * p
      case Bounce => o.y * h + bounceCurve(p) * 20.0
      case _ => o.y * h;
    var scale := match o.animation
      case ScaleUp => p
      case ScaleDown => 2.0 - p
      case _ => 1.0;
    var text := if o.animation == Typewriter then TypewriterText(o.text, p) else o.text;
    var alpha := DrawAlpha(o, t);
    TextDraw(text, posX, posY, alpha, PaintAlpha(alpha), o.fontSize * scale,
             (EntryNaN(o, t) && NaNOnEntry(o.animation)) || (ExitNaN(o, t) && NaNOnExit(o.animation)))
  }

  /** Once the entry animation is over every kind but the bounce draws the full text, full size, at its place. */
  lemma AnimationsArrive(o: TextOverlay, t: int, width: int, height: int, bounceCurve: real -> real)
    requires EntryProgress(o, t) == 1.0 && |o.text| < 0x8000_0000
    requires o.animation != Bounce
    ensures var d := RenderDraw(o, t, width, height, bounceCurve);
      d.text == o.text && d.posX == o.x * (width as real) && d.posY == o.y * (height as real)
      && d.textSize == o.fontSize
  {
    TypewriterEnds(o.text);
  }

  /**
   * A zero animation duration skips the animation: strictly inside its time
   * range every kind but the bounce draws the full text, full size, at its
   * place, with the overlay's alpha.
   */
  lemma {:induction false} ZeroDurationSkips(o: TextOverlay, t: int, width: int, height: int, bounceCurve: real -> real)
    requires o.animationDurationMs == 0 && |o.text| < 0x8000_0000
    requires IsLong(t - o.startTimeMs) && IsLong(o.endTimeMs - t) && o.startTimeMs < t < o.endTimeMs
    ensures var d := RenderDraw(o, t, width, height, bounceCurve);
      !d.nan && d.alpha == o.alpha
      && (o.animation != Bounce ==>
            d.text == o.text && d.posX == o.x * (width as real) && d.posY == o.y * (height as real)
            && d.textSize == o.fontSize)
  {
    assert EntryProgress(o, t) == 1.0 && ExitProgress(o, t) == 0.0;
    if o.animation != Bounce {
      AnimationsArrive(o, t, width, height, bounceCurve);
    }
  }

  /**
   * With a zero animation duration, at the overlay's first instant the
   * animations reading entry progress, and at its last the ones reading
   * exit progress, draw a NaN; a fade then paints with alpha 0, and the
   * typewriter shows nothing at the first instant.
   */
  lemma ZeroDurationEdges(o: TextOverlay, t: int, width: int, height: int, bounceCurve: real -> real)
    requires o.animationDurationMs == 0
    ensures var d := RenderDraw(o, t, width, height, bounceCurve);
      && (t == o.startTimeMs && NaNOnEntry(o.animation) ==> d.nan)
      && (t == o.endTimeMs && NaNOnExit(o.animation) ==> d.nan)
      && (d.nan && IsFade(o.animation) ==> d.paintAlpha == 0)
      && (t == o.startTimeMs && o.animation == Typewriter ==> !d.nan && d.text == [])
  {
    var d := RenderDraw(o, t, width, height, bounceCurve);
    if d.nan && IsFade(o.animation) {
      ProgressEnds(o, t);
      assert DrawAlpha(o, t) == 0.0;
      TruncWithin(0.0, 0, 0);
    }
    if t == o.startTimeMs && o.animation == Typewriter {
      assert EntryProgress(o, t) == 0.0;
      TruncWithin(0.0, 0, 0);
    }
  }

  /** render: an invisible overlay leaves the bitmap as it was; a visible one adds its draw. */
  function Render(drawn: seq<TextDraw>, o: TextOverlay, t: int, width: int, height: int, bounceCurve: real -> real): (r: seq<TextDraw>)
    ensures !Visible(o, t) ==> r == drawn
    ensures Visible(o, t) ==> r == drawn + [RenderDraw(o, t, width, height, bounceCurve)]
  {
    if !Visible(o, t) then drawn else drawn + [RenderDraw(o, t, width, height, bounceCurve)]
  }

  // ---------------------------------------------------------------------
  // renderAll: overlays sorted by id
  // ---------------------------------------------------------------------

  predicate SortedById(s: seq<TextOverlay>)
  {
    forall i :: 0 <= i < |s| - 1 ==> s[i].id <= s[i + 1].id
  }

  function OverlayId(o: TextOverlay): int { o.id }

  predicate StrictlyAscendingIds(s: seq<TextOverlay>)
  {
    AscendingBy(s, OverlayId)
  }

  /** Insertion into a sorted list, before the first element whose id is not smaller. */
  function Insert(o: TextOverlay, s: seq<TextOverlay>): (r: seq<TextOverlay>)
    ensures |r| == |s| + 1 && (r[0] == o || (|s| > 0 && r[0] == s[0]))
    ensures multiset(r) == multiset(s) + multiset{o}
    ensures forall u :: u in r <==> u == o || u in s
  {
    if s == [] || o.id <= s[0].id then [o] + s
    else
      assert s == [s[0]] + s[1..];
      [s[0]] + Insert(o, s[1..])
  }

  /** overlays.sortedBy { it.id }: a stable insertion sort. */
  function SortById(s: seq<TextOverlay>): (r: seq<TextOverlay>)
    ensures multiset(r) == multiset(s)
    ensures forall u :: u in r <==> u in s
  {
    if s == [] then []
    else
      assert s == [s[0]] + s[1..];
      Insert(s[0], SortById(s[1..]))
  }

  lemma {:induction false} InsertSorted(o: TextOverlay, s: seq<TextOverlay>)
    requires SortedById(s)
    ensures SortedById(Insert(o, s))
  {
    if s != [] && o.id > s[0].id {
      InsertSorted(o, s[1..]);
      var r := Insert(o, s[1..]);
      assert r[0] == o || r[0] == s[1];
    }
  }

  /** sortedBy orders by id and keeps every overlay. */
  lemma {:induction false} SortByIdSorted(s: seq<TextOverlay>)
    ensures SortedById(SortById(s)) && multiset(SortById(s)) == multiset(s)
  {
    if s != [] {
      SortByIdSorted(s[1..]);
      InsertSorted(s[0], SortById(s[1..]));
    }
  }

  /** A list already in strictly ascending id order is its own sort. */
  lemma {:induction false} SortByIdOfAscending(s: seq<TextOverlay>)
    requires StrictlyAscendingIds(s)
    ensures SortById(s) == s
  {
    if s != [] {
      SortByIdOfAscending(s[1..]);
      assert s == [s[0]] + s[1..];
    }
  }

  /** The draws the overlays of s make at time t, in list order. */
  function Draws(s: seq<TextOverlay>, t: int, width: int, height: int, bounceCurve: real -> real): seq<TextDraw>
  {
    if s == [] then []
    else Render(Draws(s[..|s| - 1], t, width, height, bounceCurve), s[|s| - 1], t, width, height, bounceCurve)
  }

  /** Drawing one more overlay of s renders it onto the draws of the ones before. */
  lemma DrawsStep(s: seq<TextOverlay>, k: int, t: int, width: int, height: int, bounceCurve: real -> real)
    requires 0 <= k < |s|
    ensures Draws(s[..k + 1], t, width, height, bounceCurve)
      == Render(Draws(s[..k], t, width, height, bounceCurve), s[k], t, width, height, bounceCurve)
  {
    var prefix := s[..k + 1];
    assert prefix[..k] == s[..k] && prefix[k] == s[k];
  }

  /** renderAll: each overlay, in ascending id order, renders onto the result of the previous one. */
  method RenderAll(drawn: seq<TextDraw>, overlays: seq<TextOverlay>, t: int, width: int, height: int, bounceCurve: real -> real)
    returns (result: seq<TextDraw>)
    ensures result == drawn + Draws(SortById(overlays), t, width, height, bounceCurve)
  {
    var sorted := SortById(overlays);
    result := drawn;
    var k := 0;
    while k < |sorted|
      invariant 0 <= k <= |sorted|
      invariant result == drawn + Draws(sorted[..k], t, width, height, bounceCurve)
    {
      DrawsStep(sorted, k, t, width, height, bounceCurve);
      result := Render(result, sorted[k], t, width, height, bounceCurve);
      k := k + 1;
    }
    assert sorted[..k] == sorted;
  }

  // ---------------------------------------------------------------------
  // TextOverlayManager
  // ---------------------------------------------------------------------

  class TextOverlayManager {
    var overlays: seq<TextOverlay>
    var nextId: int

    /** Ids come from the counter, so they are positive, below it, and ascend along the list. */
    ghost predicate Valid()
      reads this
    {
      nextId >= 1 && StrictlyAscendingIds(overlays)
      && forall o :: o in overlays ==> 1 <= o.id < nextId && o.animationDurationMs == 500
    }

    constructor ()
      ensures Valid() && overlays == [] && nextId == 1
    {
      overlays := [];
      nextId := 1;
    }

    /** addText: the next id, the end time start + duration, appended at the end. */
    method AddText(text: string, x: real, y: real, startTimeMs: int, durationMs: int) returns (overlay: TextOverlay)
      requires Valid()
      modifies this
      ensures Valid()
      ensures overlay == NewOverlay(old(nextId), text, x, y, startTimeMs, durationMs)
      ensures overlays == old(overlays) + [overlay] && nextId == old(nextId) + 1
      ensures GetOverlay(overlay.id) == Some(overlay)
    {
      overlay := NewOverlay(nextId, text, x, y, startTimeMs, durationMs);
      AscendingSnoc(overlays, overlay, OverlayId);
      nextId := nextId + 1;
      ghost var before := overlays;
      overlays := overlays + [overlay];
      assert forall i :: 0 <= i < |before| ==> overlays[i] == before[i] && overlays[i].id < overlay.id;
      assert overlays[|before|] == overlay;
    }

    /** updateText: the first overlay with the id gets the text; an unknown id changes nothing. */
    method UpdateText(id: int, text: string)
      requires Valid()
      modifies this`overlays
      ensures Valid()
      ensures overlays == match IndexWhere(old(overlays), (o: TextOverlay) => o.id == id)
        case None => old(overlays)
        case Some(k) => old(overlays)[k := old(overlays)[k].(text := text)]
    {
      match IndexWhere(overlays, (o: TextOverlay) => o.id == id)
      case None =>
      case Some(k) =>
        overlays := overlays[k := overlays[k].(text := text)];
    }

    /** removeText: every overlay with the id goes, the others stay in order. */
    method RemoveText(id: int)
      requires Valid()
      modifies this`overlays
      ensures Valid()
      ensures overlays == Filter(old(overlays), (o: TextOverlay) => o.id != id)
      ensures GetOverlay(id) == None
    {
      FilterAscending(overlays, (o: TextOverlay) => o.id != id, OverlayId);
      overlays := Filter(overlays, (o: TextOverlay) => o.id != id);
    }

    /** getOverlay: the overlay with the id, if there is one. */
    function GetOverlay(id: int): (r: Option<TextOverlay>)
      reads this
      ensures r.Some? <==> exists i :: 0 <= i < |overlays| && overlays[i].id == id
      ensures r.Some? ==> r.value in overlays && r.value.id == id
    {
      match IndexWhere(overlays, (o: TextOverlay) => o.id == id)
      case None => None
      case Some(k) => Some(overlays[k])
    }

    /** renderFrame: the overlays' draws in the order they were added, since that is ascending id order. */
    method RenderFrame(drawn: seq<TextDraw>, t: int, width: int, height: int, bounceCurve: real -> real)
      returns (result: seq<TextDraw>)
      requires Valid()
      ensures result == drawn + Draws(overlays, t, width, height, bounceCurve)
    {
      SortByIdOfAscending(overlays);
      result := RenderAll(drawn, overlays, t, width, height, bounceCurve);
    }

    /** clear: no overlays; the id counter goes on from where it was. */
    method Clear()
      requires Valid()
      modifies this`overlays
      ensures Valid() && overlays == []
    {
      overlays := [];
    }
  }
}
