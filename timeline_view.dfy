// The timeline widget (TimelineView.kt) without its drawing: the clip list,
// the selection, the total duration kept ten seconds past the last clip
// end, the playhead position, the hit test behind taps and drags, and the
// scroll and zoom clamps. Gesture detection, invalidate() and the listener
// callbacks are the platform's; each handler is a method taking the
// event's coordinates, and a callback is reported as the handler's result.
module TimelineWidget {
  import opened Common
  import opened Lists

  /** A TimelineView.Clip: times are milliseconds (Long); thumbnails are left to the drawing. */
  datatype Clip = Clip(id: int, startTimeMs: int, durationMs: int, trackIndex: int, color: int, title: string)

  const TrackHeight: real := 80.0
  const TrackSpacing: real := 8.0
  const MinTotalMs: int := 60000
  const PaddingMs: int := 10000
  const MinPixelsPerMs: real := 0.01
  const MaxPixelsPerMs: real := 1.0

  /** getTrackY: the top of track i, 40 + i * (trackHeight + trackSpacing). */
  function TrackY(trackIndex: int): real
  {
    40.0 + (trackIndex as real) * (TrackHeight + TrackSpacing)
  }

  /** The bands [TrackY(i), TrackY(i) + trackHeight] of different tracks are apart by the spacing. */
  lemma {:induction false} TracksApart(i: int, j: int)
    requires i < j
    ensures TrackY(i) + TrackHeight + TrackSpacing <= TrackY(j)
  {
    assert TrackY(j) - TrackY(i) == ((j - i) as real) * 88.0;
    assert (j - i) as real >= 1.0;
  }

  /** A point y lies in the band of at most one track. */
  lemma OneTrackAt(y: real, i: int, j: int)
    requires TrackY(i) <= y <= TrackY(i) + TrackHeight && TrackY(j) <= y <= TrackY(j) + TrackHeight
    ensures i == j
  {
    if i < j {
      TracksApart(i, j);
    } else if j < i {
      TracksApart(j, i);
    }
  }

  /** The clip's end as the Long sum startTimeMs + durationMs. */
  function ClipEnd(c: Clip): int { ToInt64(c.startTimeMs + c.durationMs) }

  /** findClipAt's test: y in the clip's track band and timeMs in [start, start + duration], both ends included. */
  predicate Hits(c: Clip, timeMs: int, y: real)
  {
    var trackY := TrackY(c.trackIndex);
    y >= trackY && y <= trackY + TrackHeight && timeMs >= c.startTimeMs && timeMs <= ClipEnd(c)
  }

  /** The time under an x coordinate: ((x + scrollOffsetX) / pixelsPerMs).toLong(). */
  function TimeAt(x: real, scrollOffsetX: real, pixelsPerMs: real): int
    requires pixelsPerMs > 0.0
  {
    FloatToLong((x + scrollOffsetX) / pixelsPerMs)
  }

  /** updateTotalDuration's maximum: 60000 and the end of every clip of s. */
  function MaxEnd(s: seq<Clip>): int
  {
    if s == [] then MinTotalMs else Max(MaxEnd(s[..|s| - 1]), ClipEnd(s[|s| - 1]))
  }

  /** MaxEnd is the largest of 60000 and the clip ends: at least each of them, and one of them. */
  lemma {:induction false} MaxEndIsMax(s: seq<Clip>)
    ensures MaxEnd(s) >= MinTotalMs
    ensures forall c :: c in s ==> ClipEnd(c) <= MaxEnd(s)
    ensures MaxEnd(s) == MinTotalMs || exists c :: c in s && ClipEnd(c) == MaxEnd(s)
  {
    if s != [] {
      var init, last := s[..|s| - 1], s[|s| - 1];
      MaxEndIsMax(init);
      assert s == init + [last];
      if MaxEnd(s) != MinTotalMs && MaxEnd(s) != ClipEnd(last) {
        var c :| c in init && ClipEnd(c) == MaxEnd(init);
        assert c in s;
      }
    }
  }

  /** Removing clips never raises the maximum end. */
  lemma {:induction false} MaxEndOfFilter(s: seq<Clip>, p: Clip -> bool)
    ensures MaxEnd(Filter(s, p)) <= MaxEnd(s)
  {
    MaxEndIsMax(Filter(s, p));
    MaxEndIsMax(s);
    if MaxEnd(Filter(s, p)) != MinTotalMs {
      var c :| c in Filter(s, p) && ClipEnd(c) == MaxEnd(Filter(s, p));
      assert c in s;
    }
  }

  /** The total duration after an add or a remove: the maximum end plus 10 s, as a Long. */
  function PaddedTotal(s: seq<Clip>): int
  {
    ToInt64(MaxEnd(s) + PaddingMs)
  }

  /** What the drag settles to: the clip's start plus the dragged time, never before 0. */
  function DraggedStart(dragStartTime: int, deltaTime: int): (r: int)
    ensures r >= 0 && IsLong(r)
    ensures IsLong(dragStartTime + deltaTime) && dragStartTime + deltaTime >= 0 ==> r == dragStartTime + deltaTime
  {
    Max(0, ToInt64(dragStartTime + deltaTime))
  }

  /** The position of the newest clip of s hit at (timeMs, y), scanning from the end. */
  function LastHit(s: seq<Clip>, timeMs: int, y: real): Option<nat>
  {
    if s == [] then None
    else if Hits(s[|s| - 1], timeMs, y) then Some(|s| - 1)
    else LastHit(s[..|s| - 1], timeMs, y)
  }

  /** LastHit finds a hit clip with no hit clip after it, or reports that no clip is hit. */
  lemma {:induction false} LastHitIsNewest(s: seq<Clip>, timeMs: int, y: real)
    ensures match LastHit(s, timeMs, y)
      case None => forall k :: 0 <= k < |s| ==> !Hits(s[k], timeMs, y)
      case Some(k) => k < |s| && Hits(s[k], timeMs, y) && forall j :: k < j < |s| ==> !Hits(s[j], timeMs, y)
  {
    if s != [] && !Hits(s[|s| - 1], timeMs, y) {
      var init := s[..|s| - 1];
      LastHitIsNewest(init, timeMs, y);
      match LastHit(init, timeMs, y)
      case None =>
        forall k | 0 <= k < |s| ensures !Hits(s[k], timeMs, y) {
          if k < |init| {
            assert s[k] == init[k];
          }
        }
      case Some(i) =>
        forall j | i < j < |s| ensures !Hits(s[j], timeMs, y) {
          if j < |init| {
            assert s[j] == init[j];
          }
        }
    }
  }

  function ClipOf(s: seq<Clip>, k: Option<nat>): Option<Clip>
  {
    if k.Some? && k.value < |s| then Some(s[k.value]) else None
  }

  function IdOf(c: Option<Clip>): Option<int>
  {
    if c.Some? then Some(c.value.id) else None
  }

  /** The position of the first clip of s with the id (clips.find { it.id == id }). */
  function IndexOfId(s: seq<Clip>, id: int): Option<nat>
  {
    IndexWhere(s, (c: Clip) => c.id == id)
  }

  /** clips.find { it.id == id }?.startTimeMs = newTime: the first clip with the id moves; the list is kept otherwise. */
  function MoveFirst(s: seq<Clip>, id: int, newTime: int): (r: seq<Clip>)
    ensures |r| == |s|
  {
    match IndexOfId(s, id)
    case None => s
    case Some(k) => s[k := s[k].(startTimeMs := newTime)]
  }

  /** A drag changes only the start of the first clip with the dragged id, and never to a negative time. */
  lemma MoveFirstChanges(s: seq<Clip>, id: int, newTime: int)
    requires newTime >= 0
    ensures var r := MoveFirst(s, id, newTime);
      forall k :: 0 <= k < |s| ==>
        (r[k] == s[k] || (r[k] == s[k].(startTimeMs := newTime) && s[k].id == id
                          && forall j :: 0 <= j < k ==> s[j].id != id))
  {
  }

  /** What onClipMoved receives when the drag of the id ends: the first such clip's id and start, if any. */
  function MovedReport(s: seq<Clip>, id: int): Option<(int, int)>
  {
    match IndexOfId(s, id)
    case None => None
    case Some(k) => Some((s[k].id, s[k].startTimeMs))
  }

  class TimelineView {
    var clips: seq<Clip>
    var totalDurationMs: int
    var currentPositionMs: int
    var pixelsPerMs: real
    var scrollOffsetX: real
    var selectedClipId: Option<int>
    var isDragging: bool
    var dragClipId: Option<int>
    var dragStartX: real
    var dragStartTime: int

    /** The zoom stays in [0.01, 1], so every division by pixelsPerMs is defined. */
    ghost predicate Valid()
      reads this
    {
      MinPixelsPerMs <= pixelsPerMs <= MaxPixelsPerMs
    }

    constructor ()
      ensures Valid() && clips == [] && totalDurationMs == 60000 && currentPositionMs == 0
      ensures pixelsPerMs == 0.1 && scrollOffsetX == 0.0 && selectedClipId == None
      ensures !isDragging && dragClipId == None
    {
      clips := [];
      totalDurationMs := 60000;
      currentPositionMs := 0;
      pixelsPerMs := 0.1;
      scrollOffsetX := 0.0;
      selectedClipId := None;
      isDragging := false;
      dragClipId := None;
      dragStartX := 0.0;
      dragStartTime := 0;
    }

    /** updateTotalDuration: the largest of 60000 and the clip ends, plus 10 s of padding. */
    method UpdateTotalDuration()
      modifies this`totalDurationMs
      ensures totalDurationMs == PaddedTotal(clips)
    {
      var maxEnd := 60000;
      var k := 0;
      while k < |clips|
        invariant 0 <= k <= |clips|
        invariant maxEnd == MaxEnd(clips[..k])
      {
        var clip := clips[k];
        assert clips[..k + 1][..k] == clips[..k];
        var end := ToInt64(clip.startTimeMs + clip.durationMs);
        if end > maxEnd {
          maxEnd := end;
        }
        k := k + 1;
      }
      assert clips[..k] == clips;
      totalDurationMs := ToInt64(maxEnd + 10000);
    }

    /** addClip: the clip goes at the end and the total duration is recomputed. */
    method AddClip(clip: Clip)
      modifies this`clips, this`totalDurationMs
      ensures clips == old(clips) + [clip]
      ensures totalDurationMs == PaddedTotal(clips)
    {
      clips := clips + [clip];
      UpdateTotalDuration();
    }

    /** removeClip: every clip with the id goes, a selection of it is cleared, the total is recomputed. */
    method RemoveClip(clipId: int)
      modifies this`clips, this`selectedClipId, this`totalDurationMs
      ensures clips == Filter(old(clips), (c: Clip) => c.id != clipId)
      ensures forall c :: c in clips ==> c.id != clipId
      ensures selectedClipId == if old(selectedClipId) == Some(clipId) then None else old(selectedClipId)
      ensures totalDurationMs == PaddedTotal(clips)
    {
      clips := Filter(clips, (c: Clip) => c.id != clipId);
      if selectedClipId == Some(clipId) {
        selectedClipId := None;
      }
      UpdateTotalDuration();
    }

    /**
     * setCurrentPosition: the position coerced into [0, totalDurationMs].
     * coerceIn throws when the range is empty, that is when the total
     * duration is negative; then nothing changes.
     */
    method SetCurrentPosition(positionMs: int) returns (thrown: bool)
      modifies this`currentPositionMs
      ensures thrown <==> totalDurationMs < 0
      ensures !thrown ==> currentPositionMs == Clamp(positionMs, 0, totalDurationMs)
      ensures thrown ==> currentPositionMs == old(currentPositionMs)
    {
      if totalDurationMs < 0 {
        return true;
      }
      currentPositionMs := Clamp(positionMs, 0, totalDurationMs);
      return false;
    }

    /** setTotalDuration: taken as given. */
    method SetTotalDuration(durationMs: int)
      modifies this`totalDurationMs
      ensures totalDurationMs == durationMs
    {
      totalDurationMs := durationMs;
    }

    /**
     * findClipAt: scanning from the newest clip back, the first whose band
     * and time span hold the point at the time under x.
     */
    method FindClipAt(x: real, y: real) returns (found: Option<Clip>)
      requires Valid()
      ensures found == ClipOf(clips, LastHit(clips, TimeAt(x, scrollOffsetX, pixelsPerMs), y))
    {
      var timeMs := FloatToLong((x + scrollOffsetX) / pixelsPerMs);
      var k := |clips|;
      assert clips[..k] == clips;
      while k > 0
        invariant 0 <= k <= |clips|
        invariant LastHit(clips, timeMs, y) == LastHit(clips[..k], timeMs, y)
      {
        assert clips[..k][..k - 1] == clips[..k - 1];
        k := k - 1;
        var clip := clips[k];
        var trackY := TrackY(clip.trackIndex);
        if y >= trackY && y <= trackY + TrackHeight {
          if timeMs >= clip.startTimeMs && timeMs <= ToInt64(clip.startTimeMs + clip.durationMs) {
            return Some(clip);
          }
        }
      }
      return None;
    }

    /**
     * handleTap: a tap on a clip selects it (its id is what onClipSelected
     * receives); a tap on empty space clears the selection and moves the
     * playhead to the tapped time.
     */
    method HandleTap(x: real, y: real) returns (selected: Option<int>, thrown: bool)
      requires Valid()
      modifies this`selectedClipId, this`currentPositionMs
      ensures selectedClipId == selected
      ensures selected == IdOf(ClipOf(clips, LastHit(clips, TimeAt(x, scrollOffsetX, pixelsPerMs), y)))
      ensures selected.Some? ==> !thrown && currentPositionMs == old(currentPositionMs)
      ensures selected.None? ==> (thrown <==> totalDurationMs < 0)
      ensures selected.None? && !thrown ==>
        currentPositionMs == Clamp(TimeAt(x, scrollOffsetX, pixelsPerMs), 0, totalDurationMs)
    {
      var clip := FindClipAt(x, y);
      match clip
      case Some(c) =>
        selectedClipId := Some(c.id);
        selected, thrown := Some(c.id), false;
      case None =>
        selectedClipId := None;
        selected := None;
        var timeMs := FloatToLong((x + scrollOffsetX) / pixelsPerMs);
        thrown := SetCurrentPosition(timeMs);
    }

    /** ACTION_DOWN: a press on the selected clip starts dragging it from its current start. */
    method TouchDown(x: real, y: real)
      requires Valid()
      modifies this`isDragging, this`dragClipId, this`dragStartX, this`dragStartTime
      ensures var hit := ClipOf(clips, LastHit(clips, TimeAt(x, scrollOffsetX, pixelsPerMs), y));
        if hit.Some? && Some(hit.value.id) == selectedClipId
        then isDragging && dragClipId == selectedClipId && dragStartX == x && dragStartTime == hit.value.startTimeMs
        else isDragging == old(isDragging) && dragClipId == old(dragClipId)
             && dragStartX == old(dragStartX) && dragStartTime == old(dragStartTime)
    {
      var clip := FindClipAt(x, y);
      if clip.Some? && Some(clip.value.id) == selectedClipId {
        isDragging := true;
        dragClipId := Some(clip.value.id);
        dragStartX := x;
        dragStartTime := clip.value.startTimeMs;
      }
    }

    /**
     * ACTION_MOVE while dragging: the first clip with the dragged id starts
     * at max(0, dragStartTime + deltaTime), deltaTime the moved distance in
     * milliseconds; nothing else changes.
     */
    method TouchMove(x: real)
      requires Valid()
      modifies this`clips
      ensures !isDragging || dragClipId.None? ==> clips == old(clips)
      ensures isDragging && dragClipId.Some? ==>
        clips == MoveFirst(old(clips), dragClipId.value, DraggedStart(dragStartTime, FloatToLong((x - dragStartX) / pixelsPerMs)))
    {
      if isDragging && dragClipId.Some? {
        var deltaX := x - dragStartX;
        var deltaTime := FloatToLong(deltaX / pixelsPerMs);
        var newTime := Max(0, ToInt64(dragStartTime + deltaTime));
        assert newTime == DraggedStart(dragStartTime, deltaTime);
        var id := dragClipId.value;
        match IndexOfId(clips, id)
        case None =>
        case Some(k) =>
          clips := clips[k := clips[k].(startTimeMs := newTime)];
      }
    }

    /**
     * ACTION_UP or ACTION_CANCEL: dragging ends; when a drag of a clip still
     * in the list ends, its id and start are what onClipMoved receives.
     */
    method TouchUp() returns (moved: Option<(int, int)>)
      modifies this`isDragging, this`dragClipId
      ensures !isDragging && dragClipId == None
      ensures moved == if old(isDragging) && old(dragClipId).Some? then MovedReport(clips, old(dragClipId).value) else None
    {
      moved := None;
      if isDragging && dragClipId.Some? {
        var id := dragClipId.value;
        match IndexOfId(clips, id)
        case None =>
        case Some(k) =>
          moved := Some((clips[k].id, clips[k].startTimeMs));
      }
      isDragging := false;
      dragClipId := None;
    }

    /** onScale: the zoom multiplied by the gesture's factor, kept within [0.01, 1]. */
    method Zoom(scaleFactor: real)
      requires Valid()
      modifies this`pixelsPerMs
      ensures Valid()
      ensures pixelsPerMs == MaxReal(MinPixelsPerMs, MinReal(MaxPixelsPerMs, old(pixelsPerMs) * scaleFactor))
      ensures MinPixelsPerMs <= old(pixelsPerMs) * scaleFactor <= MaxPixelsPerMs ==> pixelsPerMs == old(pixelsPerMs) * scaleFactor
      ensures old(pixelsPerMs) * scaleFactor < MinPixelsPerMs ==> pixelsPerMs == MinPixelsPerMs
      ensures old(pixelsPerMs) * scaleFactor > MaxPixelsPerMs ==> pixelsPerMs == MaxPixelsPerMs
    {
      pixelsPerMs := pixelsPerMs * scaleFactor;
      pixelsPerMs := MaxReal(MinPixelsPerMs, MinReal(MaxPixelsPerMs, pixelsPerMs));
    }

    /** onScroll: unless a clip is being dragged, scroll by distanceX, never before the start. */
    method Scroll(distanceX: real, viewWidth: int)
      modifies this`scrollOffsetX
      ensures isDragging ==> scrollOffsetX == old(scrollOffsetX)
      ensures !isDragging ==>
        scrollOffsetX == MaxReal(0.0, MinReal(old(scrollOffsetX) + distanceX, (totalDurationMs as real) * pixelsPerMs - (viewWidth as real)))
      ensures !isDragging ==> scrollOffsetX >= 0.0
      ensures !isDragging ==> scrollOffsetX == 0.0 || scrollOffsetX <= (totalDurationMs as real) * pixelsPerMs - (viewWidth as real)
      ensures !isDragging && 0.0 <= old(scrollOffsetX) + distanceX <= (totalDurationMs as real) * pixelsPerMs - (viewWidth as real)
        ==> scrollOffsetX == old(scrollOffsetX) + distanceX
    {
      if !isDragging {
        scrollOffsetX := scrollOffsetX + distanceX;
        scrollOffsetX := MaxReal(0.0, MinReal(scrollOffsetX, (totalDurationMs as real) * pixelsPerMs - (viewWidth as real)));
      }
    }
  }
}
