// Timeline (timeline.h / timeline.cpp): the clip table keyed by clip id,
// its editing operations, the position and range queries and the derived
// total duration. The std::map becomes a Dafny map; std::map iteration
// order (ascending id) is made explicit by InIdOrder.
module Timeline {
  import opened Common

  /** TimelineClip. Durations and positions are microseconds; speed and volume are floats. */
  datatype Clip = Clip(
    id: int,
    filePath: string,
    trackIndex: int,
    startTime: int,
    duration: int,
    trimStart: int,
    trimEnd: int,
    sourceDuration: int,
    speed: real,
    volume: real,
    effects: seq<EffectParams>)

  /** The placeholder source length addClip gives every clip (10 s). */
  const PlaceholderSourceDuration: int := 10000000

  const MinSpeed: real := 0.1
  const MaxSpeed: real := 10.0
  const MaxVolume: real := 2.0

  function End(c: Clip): int { c.startTime + c.duration }

  // ---------------------------------------------------------------------
  // Specification functions
  // ---------------------------------------------------------------------

  /** The clip addClip creates. */
  function NewClip(id: int, filePath: string, trackIndex: int, position: int): (c: Clip)
    ensures c.id == id && c.trackIndex == trackIndex && c.startTime == position
    ensures c.trimStart == 0 && c.trimEnd == 0 && c.speed == 1.0 && c.volume == 1.0
    ensures c.sourceDuration == c.duration == PlaceholderSourceDuration && c.effects == []
  {
    Clip(id, filePath, trackIndex, position, PlaceholderSourceDuration, 0, 0,
         PlaceholderSourceDuration, 1.0, 1.0, [])
  }

  /** trimClip on one clip: both trims clamped, duration recomputed from the untrimmed rest. */
  function Trimmed(c: Clip, trimStart: int, trimEnd: int): (r: Clip)
    requires c.speed > 0.0
    ensures c.sourceDuration >= 0 ==>
      0 <= r.trimStart <= c.sourceDuration && 0 <= r.trimEnd <= c.sourceDuration - r.trimStart && r.duration >= 0
    ensures 0 <= trimStart <= c.sourceDuration ==> r.trimStart == trimStart
    ensures 0 <= trimStart <= c.sourceDuration && 0 <= trimEnd <= c.sourceDuration - trimStart ==> r.trimEnd == trimEnd
    ensures c.speed == 1.0 ==> PlaysUntrimmed(r)
    ensures r == c.(trimStart := r.trimStart, trimEnd := r.trimEnd, duration := r.duration)
  {
    var maxTrim := c.sourceDuration;
    var ts := Max(0, Min(trimStart, maxTrim));
    var te := Max(0, Min(trimEnd, maxTrim - ts));
    c.(trimStart := ts, trimEnd := te,
       duration := Trunc((c.sourceDuration - ts - te) as real / c.speed))
  }

  /** Is position strictly inside the clip, so that splitClip accepts it? */
  predicate SplitsAt(c: Clip, position: int)
  {
    c.startTime < position < End(c)
  }

  /** The part of a split clip that keeps its id. */
  function SplitFirst(c: Clip, position: int): Clip
  {
    var splitInSource := c.trimStart + Trunc((position - c.startTime) as real * c.speed);
    c.(trimEnd := c.sourceDuration - splitInSource, duration := position - c.startTime)
  }

  /** The part of a split clip that gets the fresh id. */
  function SplitSecond(c: Clip, position: int, newId: int): Clip
  {
    var splitInSource := c.trimStart + Trunc((position - c.startTime) as real * c.speed);
    c.(id := newId, startTime := position, trimStart := splitInSource,
       duration := c.duration - (position - c.startTime))
  }

  /**
   * The two halves of a split meet at the split position, their durations
   * add up to the original one, and together they cover the same span.
   */
  lemma SplitPieces(c: Clip, position: int, newId: int)
    requires SplitsAt(c, position)
    ensures var a, b := SplitFirst(c, position), SplitSecond(c, position, newId);
      a.startTime == c.startTime && End(a) == position && b.startTime == position
      && a.duration + b.duration == c.duration && End(b) == End(c)
      && a.duration > 0 && b.duration > 0 && b.id == newId && a.id == c.id
      && a.trackIndex == b.trackIndex == c.trackIndex
  {
  }

  /** The clip plays exactly its untrimmed source at unit speed. */
  predicate PlaysUntrimmed(c: Clip)
  {
    c.duration == c.sourceDuration - c.trimStart - c.trimEnd
  }

  /**
   * At unit speed a split hands the source over without gap or overlap: the
   * first piece ends in the source where the second starts, and both pieces
   * still play exactly their untrimmed source.
   */
  lemma {:induction false} SplitAtUnitSpeed(c: Clip, position: int, newId: int)
    requires SplitsAt(c, position) && c.speed == 1.0 && PlaysUntrimmed(c)
    ensures var a, b := SplitFirst(c, position), SplitSecond(c, position, newId);
      a.sourceDuration - a.trimEnd == b.trimStart && PlaysUntrimmed(a) && PlaysUntrimmed(b)
  {
    assert (position - c.startTime) as real * c.speed == (position - c.startTime) as real;
  }

  /** setClipSpeed on one clip. */
  function WithSpeed(c: Clip, speed: real): (r: Clip)
    ensures MinSpeed <= r.speed <= MaxSpeed
    ensures MinSpeed <= speed <= MaxSpeed ==> r.speed == speed
    ensures c.sourceDuration - c.trimStart - c.trimEnd >= 0 ==> r.duration >= 0
    ensures r.speed == 1.0 ==> PlaysUntrimmed(r)
    ensures r == c.(speed := r.speed, duration := r.duration)
  {
    var s := ClampReal(speed, MinSpeed, MaxSpeed);
    var remaining := c.sourceDuration - c.trimStart - c.trimEnd;
    c.(speed := s, duration := Trunc(remaining as real / s))
  }

  /** setClipVolume on one clip. */
  function WithVolume(c: Clip, volume: real): (r: Clip)
    ensures 0.0 <= r.volume <= MaxVolume
    ensures 0.0 <= volume <= MaxVolume ==> r.volume == volume
    ensures r == c.(volume := r.volume)
  {
    c.(volume := ClampReal(volume, 0.0, MaxVolume))
  }

  /** d is the timeline length: the largest clip end, or 0 if larger than every end. */
  ghost predicate IsMaxEnd(d: int, clips: map<int, Clip>)
  {
    d >= 0
    && (forall id :: id in clips ==> End(clips[id]) <= d)
    && (d == 0 || exists id :: id in clips && End(clips[id]) == d)
  }

  /** The duration is determined by the clips. */
  lemma MaxEndUnique(d1: int, d2: int, clips: map<int, Clip>)
    requires IsMaxEnd(d1, clips) && IsMaxEnd(d2, clips)
    ensures d1 == d2
  {
  }

  /** Replacing a clip by one that ends at the same time keeps the timeline length. */
  lemma {:induction false} SameEndKeepsMaxEnd(d: int, clips: map<int, Clip>, id: int, c: Clip)
    requires IsMaxEnd(d, clips) && id in clips && End(c) == End(clips[id])
    ensures IsMaxEnd(d, clips[id := c])
  {
    if d != 0 {
      var w :| w in clips && End(clips[w]) == d;
      assert End(clips[id := c][w]) == d;
    }
  }

  /** Splitting a clip replaces it by two pieces with the same ends, so the timeline length stays. */
  lemma {:induction false} SplitKeepsMaxEnd(d: int, clips: map<int, Clip>, id: int, position: int, newId: int)
    requires IsMaxEnd(d, clips) && id in clips && newId !in clips && SplitsAt(clips[id], position)
    ensures IsMaxEnd(d, clips[id := SplitFirst(clips[id], position)][newId := SplitSecond(clips[id], position, newId)])
  {
    var c := clips[id];
    var clips' := clips[id := SplitFirst(c, position)][newId := SplitSecond(c, position, newId)];
    SplitPieces(c, position, newId);
    if d != 0 {
      var w :| w in clips && End(clips[w]) == d;
      if w == id {
        assert End(clips'[newId]) == d;
      } else {
        assert End(clips'[w]) == d;
      }
    }
  }

  // ---------------------------------------------------------------------
  // std::map iteration order
  // ---------------------------------------------------------------------

  /** Every clip is stored under its own id. */
  predicate KeyedById(clips: map<int, Clip>)
  {
    forall id :: id in clips ==> clips[id].id == id
  }

  /** Strictly ascending ids, as a std::map keyed by id yields them. */
  predicate IdOrdered(s: seq<Clip>)
  {
    forall i, j :: 0 <= i < j < |s| ==> s[i].id < s[j].id
  }

  /**
   * The clips whose ids lie in [1, n), in ascending id order: the order in
   * which a std::map keyed by id visits them.
   */
  function InIdOrder(clips: map<int, Clip>, n: int): seq<Clip>
    decreases n
  {
    if n <= 1 then []
    else InIdOrder(clips, n - 1) + (if n - 1 in clips then [clips[n - 1]] else [])
  }

  /** InIdOrder lists each stored clip with an id in [1, n) once, by ascending id. */
  lemma {:induction false} InIdOrderMembers(clips: map<int, Clip>, n: int)
    requires KeyedById(clips)
    ensures var r := InIdOrder(clips, n);
      (forall c :: c in r <==> c.id in clips && clips[c.id] == c && 1 <= c.id < n)
      && IdOrdered(r)
    decreases n
  {
    if n > 1 {
      InIdOrderMembers(clips, n - 1);
    }
  }

  predicate Covers(c: Clip, position: int) { c.startTime <= position < End(c) }

  predicate Overlaps(c: Clip, start: int, end: int) { c.startTime < end && End(c) > start }

  /** The clips of s covering position, in order. */
  function Covering(s: seq<Clip>, position: int): (r: seq<Clip>)
    ensures |r| <= |s|
  {
    if s == [] then []
    else Covering(s[..|s| - 1], position) + (if Covers(s[|s| - 1], position) then [s[|s| - 1]] else [])
  }

  /** The clips of s overlapping the open range (start, end), in order. */
  function Overlapping(s: seq<Clip>, start: int, end: int): (r: seq<Clip>)
    ensures |r| <= |s|
  {
    if s == [] then []
    else Overlapping(s[..|s| - 1], start, end) + (if Overlaps(s[|s| - 1], start, end) then [s[|s| - 1]] else [])
  }

  lemma {:induction false} CoveringMembers(s: seq<Clip>, position: int)
    ensures forall c :: c in Covering(s, position) <==> c in s && Covers(c, position)
    decreases |s|
  {
    if s != [] {
      CoveringMembers(s[..|s| - 1], position);
      assert s == s[..|s| - 1] + [s[|s| - 1]];
    }
  }

  lemma {:induction false} OverlappingMembers(s: seq<Clip>, start: int, end: int)
    ensures forall c :: c in Overlapping(s, start, end) <==> c in s && Overlaps(c, start, end)
    decreases |s|
  {
    if s != [] {
      OverlappingMembers(s[..|s| - 1], start, end);
      assert s == s[..|s| - 1] + [s[|s| - 1]];
    }
  }

  lemma CoveringSnoc(s: seq<Clip>, c: Clip, position: int)
    ensures Covering(s + [c], position) == Covering(s, position) + (if Covers(c, position) then [c] else [])
  {
    assert (s + [c])[..|s|] == s;
  }

  lemma OverlappingSnoc(s: seq<Clip>, c: Clip, start: int, end: int)
    ensures Overlapping(s + [c], start, end) == Overlapping(s, start, end) + (if Overlaps(c, start, end) then [c] else [])
  {
    assert (s + [c])[..|s|] == s;
  }

  /** found holds the clips of ids below n that cover position, in id order. */
  ghost predicate CoveredSoFar(clips: map<int, Clip>, n: int, position: int, found: seq<Clip>) {
    found == Covering(InIdOrder(clips, n), position)
  }

  /** found holds the clips of ids below n that overlap (start, end), in id order. */
  ghost predicate OverlappedSoFar(clips: map<int, Clip>, n: int, start: int, end: int, found: seq<Clip>) {
    found == Overlapping(InIdOrder(clips, n), start, end)
  }

  /** Scanning id n extends the covering clips of ids below n by clip n when it covers position. */
  lemma CoveringStep(clips: map<int, Clip>, n: int, position: int, found: seq<Clip>)
    requires n >= 1 && CoveredSoFar(clips, n, position, found)
    ensures CoveredSoFar(clips, n + 1, position,
                         found + (if n in clips && Covers(clips[n], position) then [clips[n]] else []))
  {
    if n in clips {
      CoveringSnoc(InIdOrder(clips, n), clips[n], position);
    } else {
      assert InIdOrder(clips, n + 1) == InIdOrder(clips, n);
    }
  }

  /** Scanning id n extends the overlapping clips of ids below n by clip n when it overlaps. */
  lemma OverlappingStep(clips: map<int, Clip>, n: int, start: int, end: int, found: seq<Clip>)
    requires n >= 1 && OverlappedSoFar(clips, n, start, end, found)
    ensures OverlappedSoFar(clips, n + 1, start, end,
                            found + (if n in clips && Overlaps(clips[n], start, end) then [clips[n]] else []))
  {
    if n in clips {
      OverlappingSnoc(InIdOrder(clips, n), clips[n], start, end);
    } else {
      assert InIdOrder(clips, n + 1) == InIdOrder(clips, n);
    }
  }

  predicate SortedByTrack(s: seq<Clip>)
  {
    forall i, j :: 0 <= i < j < |s| ==> s[i].trackIndex <= s[j].trackIndex
  }

  /** Insert c into a track-sorted sequence, before the first clip on a track not below c's. */
  function InsertByTrack(s: seq<Clip>, c: Clip): seq<Clip>
  {
    if s == [] then [c]
    else if c.trackIndex <= s[0].trackIndex then [c] + s
    else [s[0]] + InsertByTrack(s[1..], c)
  }

  lemma {:induction false} InsertByTrackPermutes(s: seq<Clip>, c: Clip)
    ensures multiset(InsertByTrack(s, c)) == multiset(s) + multiset{c}
  {
    if s != [] && c.trackIndex > s[0].trackIndex {
      InsertByTrackPermutes(s[1..], c);
      assert s == [s[0]] + s[1..];
    }
  }

  lemma {:induction false} InsertByTrackSorted(s: seq<Clip>, c: Clip)
    requires SortedByTrack(s)
    ensures SortedByTrack(InsertByTrack(s, c))
  {
    if s == [] {
    } else if c.trackIndex <= s[0].trackIndex {
      SortedCons(c, s);
    } else {
      InsertByTrackSorted(s[1..], c);
      InsertByTrackAbove(s[1..], c, s[0].trackIndex);
      SortedCons(s[0], InsertByTrack(s[1..], c));
    }
  }

  /** Inserting keeps every clip on a track at or above b when c's track is too. */
  lemma {:induction false} InsertByTrackAbove(s: seq<Clip>, c: Clip, b: int)
    requires forall i :: 0 <= i < |s| ==> b <= s[i].trackIndex
    requires b <= c.trackIndex
    ensures forall i :: 0 <= i < |InsertByTrack(s, c)| ==> b <= InsertByTrack(s, c)[i].trackIndex
  {
    if s != [] && c.trackIndex > s[0].trackIndex {
      InsertByTrackAbove(s[1..], c, b);
      var rest := InsertByTrack(s[1..], c);
      forall i | 1 <= i < |[s[0]] + rest| ensures ([s[0]] + rest)[i] == rest[i - 1] {
      }
    }
  }

  lemma SortedCons(h: Clip, rest: seq<Clip>)
    requires SortedByTrack(rest)
    requires forall i :: 0 <= i < |rest| ==> h.trackIndex <= rest[i].trackIndex
    ensures SortedByTrack([h] + rest)
  {
    var r := [h] + rest;
    forall i, j | 0 <= i < j < |r| ensures r[i].trackIndex <= r[j].trackIndex {
      assert r[j] == rest[j - 1];
      if i > 0 {
        assert r[i] == rest[i - 1];
      }
    }
  }

  /**
   * std::sort by trackIndex: the result is ordered by track and is a
   * permutation of the input. std::sort is not stable, so the order of clips
   * on the same track is not specified.
   */
  function SortByTrack(s: seq<Clip>): (r: seq<Clip>)
    ensures SortedByTrack(r) && multiset(r) == multiset(s)
  {
    if s == [] then []
    else
      var sorted := SortByTrack(s[..|s| - 1]);
      InsertByTrackSorted(sorted, s[|s| - 1]);
      InsertByTrackPermutes(sorted, s[|s| - 1]);
      assert s == s[..|s| - 1] + [s[|s| - 1]];
      InsertByTrack(sorted, s[|s| - 1])
  }

  // ---------------------------------------------------------------------
  // The Timeline object
  // ---------------------------------------------------------------------

  class Timeline {
    var clips: map<int, Clip>
    var nextClipId: int
    var trackCount: int
    var duration: int

    /** Ids are below the counter and stored in the clip; the cached duration is the timeline length. */
    ghost predicate Valid()
      reads this
    {
      nextClipId >= 1
      && KeyedById(clips)
      && (forall id :: id in clips ==> 1 <= id < nextClipId)
      && (forall id :: id in clips ==> MinSpeed <= clips[id].speed <= MaxSpeed)
      && (forall id :: id in clips ==> 0.0 <= clips[id].volume <= MaxVolume)
      && (forall id :: id in clips ==> clips[id].sourceDuration >= 0)
      && IsMaxEnd(duration, clips)
    }

    constructor ()
      ensures Valid() && clips == map[] && nextClipId == 1 && trackCount == 3 && duration == 0
    {
      clips := map[];
      nextClipId := 1;
      trackCount := 3;
      duration := 0;
    }

    method Clear()
      requires Valid()
      modifies this
      ensures Valid() && clips == map[] && duration == 0 && nextClipId == 1
      ensures trackCount == old(trackCount)
    {
      clips := map[];
      duration := 0;
      nextClipId := 1;
    }

    /** recalculateDuration: the largest end over all clips, starting from 0 (visited in id order). */
    method RecalculateDuration()
      requires forall id :: id in clips ==> 1 <= id < nextClipId
      modifies this`duration
      ensures IsMaxEnd(duration, clips)
    {
      var d := 0;
      var id := 1;
      while id < nextClipId
        invariant d >= 0
        invariant forall k :: k in clips && k < id ==> End(clips[k]) <= d
        invariant d == 0 || exists k :: k in clips && End(clips[k]) == d
      {
        if id in clips && End(clips[id]) > d {
          d := End(clips[id]);
        }
        id := id + 1;
      }
      duration := d;
    }

    method AddClip(filePath: string, trackIndex: int, position: int) returns (ok: bool)
      requires Valid()
      modifies this
      ensures Valid() && ok
      ensures clips == old(clips)[old(nextClipId) := NewClip(old(nextClipId), filePath, trackIndex, position)]
      ensures old(nextClipId) !in old(clips)
      ensures nextClipId == old(nextClipId) + 1 && trackCount == old(trackCount)
    {
      var id := nextClipId;
      nextClipId := nextClipId + 1;
      clips := clips[id := NewClip(id, filePath, trackIndex, position)];
      RecalculateDuration();
      ok := true;
    }

    method RemoveClip(clipId: int) returns (ok: bool)
      requires Valid()
      modifies this
      ensures Valid()
      ensures ok == (clipId in old(clips))
      ensures clips == old(clips) - {clipId}
      ensures nextClipId == old(nextClipId) && trackCount == old(trackCount)
    {
      if clipId !in clips {
        return false;
      }
      clips := clips - {clipId};
      RecalculateDuration();
      ok := true;
    }

    method MoveClip(clipId: int, trackIndex: int, position: int) returns (ok: bool)
      requires Valid()
      modifies this
      ensures Valid()
      ensures ok == (clipId in old(clips))
      ensures clips == if ok then old(clips)[clipId := old(clips)[clipId].(trackIndex := trackIndex, startTime := position)]
                       else old(clips)
      ensures nextClipId == old(nextClipId) && trackCount == old(trackCount)
    {
      if clipId !in clips {
        return false;
      }
      clips := clips[clipId := clips[clipId].(trackIndex := trackIndex, startTime := position)];
      RecalculateDuration();
      ok := true;
    }

    method TrimClip(clipId: int, trimStart: int, trimEnd: int) returns (ok: bool)
      requires Valid()
      modifies this
      ensures Valid()
      ensures ok == (clipId in old(clips))
      ensures clips == if ok then old(clips)[clipId := Trimmed(old(clips)[clipId], trimStart, trimEnd)] else old(clips)
      ensures nextClipId == old(nextClipId) && trackCount == old(trackCount)
    {
      if clipId !in clips {
        return false;
      }
      clips := clips[clipId := Trimmed(clips[clipId], trimStart, trimEnd)];
      RecalculateDuration();
      ok := true;
    }

    /** splitClip: no recalculation, which is sound because a split keeps the timeline length. */
    method SplitClip(clipId: int, position: int) returns (ok: bool)
      requires Valid()
      modifies this
      ensures Valid()
      ensures ok == (clipId in old(clips) && SplitsAt(old(clips)[clipId], position))
      ensures ok ==> old(nextClipId) !in old(clips) && nextClipId == old(nextClipId) + 1
      ensures ok ==> clips == old(clips)[clipId := SplitFirst(old(clips)[clipId], position)]
                                        [old(nextClipId) := SplitSecond(old(clips)[clipId], position, old(nextClipId))]
      ensures !ok ==> clips == old(clips) && nextClipId == old(nextClipId)
      ensures duration == old(duration) && trackCount == old(trackCount)
    {
      if clipId !in clips {
        return false;
      }
      var original := clips[clipId];
      if position <= original.startTime || position >= original.startTime + original.duration {
        return false;
      }
      var newId := nextClipId;
      nextClipId := nextClipId + 1;
      SplitKeepsMaxEnd(duration, clips, clipId, position, newId);
      clips := clips[clipId := SplitFirst(original, position)][newId := SplitSecond(original, position, newId)];
      ok := true;
    }

    method SetClipSpeed(clipId: int, speed: real) returns (ok: bool)
      requires Valid()
      modifies this
      ensures Valid()
      ensures ok == (clipId in old(clips))
      ensures clips == if ok then old(clips)[clipId := WithSpeed(old(clips)[clipId], speed)] else old(clips)
      ensures nextClipId == old(nextClipId) && trackCount == old(trackCount)
    {
      if clipId !in clips {
        return false;
      }
      clips := clips[clipId := WithSpeed(clips[clipId], speed)];
      RecalculateDuration();
      ok := true;
    }

    method SetClipVolume(clipId: int, volume: real) returns (ok: bool)
      requires Valid()
      modifies this
      ensures Valid()
      ensures ok == (clipId in old(clips))
      ensures clips == if ok then old(clips)[clipId := WithVolume(old(clips)[clipId], volume)] else old(clips)
      ensures nextClipId == old(nextClipId) && duration == old(duration) && trackCount == old(trackCount)
    {
      if clipId !in clips {
        return false;
      }
      SameEndKeepsMaxEnd(duration, clips, clipId, WithVolume(clips[clipId], volume));
      clips := clips[clipId := WithVolume(clips[clipId], volume)];
      ok := true;
    }

    /** getClip: the clip under that id, or nullptr. */
    method GetClip(clipId: int) returns (r: Option<Clip>)
      requires Valid()
      ensures r.Some? <==> clipId in clips
      ensures r.Some? ==> r.value == clips[clipId] && r.value.id == clipId
    {
      if clipId in clips {
        r := Some(clips[clipId]);
      } else {
        r := None;
      }
    }

    /** getClipsAtPosition: the covering clips in id order, then std::sort by track. */
    method GetClipsAtPosition(position: int) returns (r: seq<Clip>)
      requires Valid()
      ensures SortedByTrack(r)
      ensures multiset(r) == multiset(Covering(InIdOrder(clips, nextClipId), position))
      ensures StoredCovering(r, clips, position)
    {
      var found := CoveringClips(position);
      r := SortByTrack(found);
      PositionQuery(clips, nextClipId, found, r, position);
    }

    /** The scan of getClipsAtPosition: the clips covering position, by ascending id. */
    method CoveringClips(position: int) returns (found: seq<Clip>)
      requires nextClipId >= 1
      ensures found == Covering(InIdOrder(clips, nextClipId), position)
    {
      found := [];
      var id := 1;
      while id < nextClipId
        invariant 1 <= id <= nextClipId
        invariant CoveredSoFar(clips, id, position, found)
      {
        CoveringStep(clips, id, position, found);
        if id in clips {
          if position >= clips[id].startTime && position < clips[id].startTime + clips[id].duration {
            found := found + [clips[id]];
          }
        }
        id := id + 1;
      }
    }

    /** getClipsInRange: the clips overlapping (start, end), in id order. */
    method GetClipsInRange(start: int, end: int) returns (r: seq<Clip>)
      requires Valid()
      ensures r == Overlapping(InIdOrder(clips, nextClipId), start, end)
      ensures forall c :: c in r <==> c.id in clips && clips[c.id] == c && Overlaps(c, start, end)
      ensures IdOrdered(r)
    {
      r := OverlappingClips(start, end);
      RangeQuery(clips, nextClipId, start, end);
    }

    /** The scan of getClipsInRange over ids 1 .. nextClipId - 1. */
    method OverlappingClips(start: int, end: int) returns (r: seq<Clip>)
      requires nextClipId >= 1
      ensures r == Overlapping(InIdOrder(clips, nextClipId), start, end)
    {
      r := [];
      var id := 1;
      while id < nextClipId
        invariant 1 <= id <= nextClipId
        invariant OverlappedSoFar(clips, id, start, end, r)
      {
        OverlappingStep(clips, id, start, end, r);
        if id in clips {
          var clipEnd := clips[id].startTime + clips[id].duration;
          if clips[id].startTime < end && clipEnd > start {
            r := r + [clips[id]];
          }
        }
        id := id + 1;
      }
    }

    /** getAllClips: every clip, in id order. */
    method GetAllClips() returns (r: seq<Clip>)
      requires Valid()
      ensures r == InIdOrder(clips, nextClipId)
      ensures forall c :: c in r <==> c.id in clips && clips[c.id] == c
      ensures IdOrdered(r)
    {
      r := [];
      var id := 1;
      while id < nextClipId
        invariant 1 <= id <= nextClipId
        invariant r == InIdOrder(clips, id)
      {
        if id in clips {
          r := r + [clips[id]];
        }
        id := id + 1;
      }
      InIdOrderMembers(clips, nextClipId);
    }

    method GetDuration() returns (d: int)
      requires Valid()
      ensures IsMaxEnd(d, clips)
    {
      d := duration;
    }

    method GetTrackCount() returns (n: int)
      ensures n == trackCount
    {
      n := trackCount;
    }
  }

  /** Filtering keeps a strictly id-ordered sequence strictly id-ordered. */
  lemma {:induction false} OverlappingKeepsOrder(s: seq<Clip>, start: int, end: int)
    requires IdOrdered(s)
    ensures IdOrdered(Overlapping(s, start, end))
    decreases |s|
  {
    if s != [] {
      var init, last := s[..|s| - 1], s[|s| - 1];
      OverlappingKeepsOrder(init, start, end);
      OverlappingMembers(init, start, end);
      var r0 := Overlapping(init, start, end);
      var r := Overlapping(s, start, end);
      assert r == r0 + (if Overlaps(last, start, end) then [last] else []);
      forall i, j | 0 <= i < j < |r| ensures r[i].id < r[j].id {
        if j < |r0| {
          assert r[i] == r0[i] && r[j] == r0[j];
        } else {
          assert r[i] == r0[i] && r[j] == last;
          assert r0[i] in init;
          var k :| 0 <= k < |init| && init[k] == r0[i];
          assert s[k] == init[k];
          assert s[k].id < s[|s| - 1].id;
        }
      }
    }
  }

  /** getClipsInRange's result: exactly the stored clips overlapping the range, by ascending id. */
  lemma RangeQuery(clips: map<int, Clip>, n: int, start: int, end: int)
    requires KeyedById(clips) && forall id :: id in clips ==> 1 <= id < n
    ensures var r := Overlapping(InIdOrder(clips, n), start, end);
      (forall c :: c in r <==> c.id in clips && clips[c.id] == c && Overlaps(c, start, end)) && IdOrdered(r)
  {
    InIdOrderMembers(clips, n);
    OverlappingMembers(InIdOrder(clips, n), start, end);
    OverlappingKeepsOrder(InIdOrder(clips, n), start, end);
  }

  /** r holds exactly the stored clips that cover position. */
  ghost predicate StoredCovering(r: seq<Clip>, clips: map<int, Clip>, position: int)
  {
    forall c :: c in r <==> c.id in clips && clips[c.id] == c && Covers(c, position)
  }

  /** getClipsAtPosition's result: exactly the stored clips covering the position, in any order. */
  lemma PositionQuery(clips: map<int, Clip>, n: int, found: seq<Clip>, r: seq<Clip>, position: int)
    requires KeyedById(clips) && forall id :: id in clips ==> 1 <= id < n
    requires found == Covering(InIdOrder(clips, n), position) && r == SortByTrack(found)
    ensures SortedByTrack(r) && multiset(r) == multiset(found)
    ensures StoredCovering(r, clips, position)
  {
    InIdOrderMembers(clips, n);
    CoveringMembers(InIdOrder(clips, n), position);
    forall c: Clip ensures c in r <==> c in found {
      assert c in r <==> c in multiset(r);
      assert c in found <==> c in multiset(found);
    }
  }
}
