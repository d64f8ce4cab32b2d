// FilterManager (filter_manager.cpp): per-clip filter lists under one global
// filter id counter, and the pass that runs every list over a frame through
// the colour filter and the box blur.
module FilterManager {
  import opened Common
  import ColorFilter
  import BlurFilter

  datatype FilterInstance = FilterInstance(id: int, filterType: string, params: EffectParams)

  /** getAvailableFilters, in the order it lists them. */
  const AvailableFilters: seq<string> :=
    ["brightness", "contrast", "saturation", "hue", "blur", "gaussian",
     "sharpen", "vignette", "sepia", "grayscale", "invert"]

  const ColorTypes: set<string> := {"brightness", "contrast", "saturation", "hue"}
  const BlurTypes: set<string> := {"blur", "gaussian"}

  /** What applyFilters hands on for one filter. */
  datatype FilterCall = ColorCall(kind: string, intensity: real) | BlurCall(radius: int)

  /** The branch of applyFilters a filter takes, or None when it is skipped. */
  function CallFor(f: FilterInstance): (r: Option<FilterCall>)
    ensures r.None? <==> f.filterType !in ColorTypes && f.filterType !in BlurTypes
    ensures r.Some? && r.value.ColorCall? <==> f.filterType in ColorTypes
    ensures r.Some? && r.value.ColorCall? ==> r.value == ColorCall(f.filterType, f.params.intensity)
    ensures r.Some? && r.value.BlurCall? ==> r.value == BlurCall(Trunc(f.params.intensity))
  {
    if f.filterType in ColorTypes then Some(ColorCall(f.filterType, f.params.intensity))
    else if f.filterType in BlurTypes then Some(BlurCall(Trunc(f.params.intensity)))
    else None
  }

  /** Five of the listed types are offered but never reach a filter. */
  lemma ListedButSkipped(p: EffectParams)
    ensures forall t :: t in AvailableFilters ==>
      (CallFor(FilterInstance(0, t, p)).None? <==> t in {"sharpen", "vignette", "sepia", "grayscale", "invert"})
  {
  }

  /** The calls made for one clip's list, in list order. */
  function CallsOf(fs: seq<FilterInstance>): seq<FilterCall>
  {
    if |fs| == 0 then []
    else
      var last := fs[|fs| - 1];
      CallsOf(fs[..|fs| - 1]) + (if CallFor(last).Some? then [CallFor(last).value] else [])
  }

  /** The calls made for the clips ids, in that order. */
  function Plan(ids: seq<int>, m: map<int, seq<FilterInstance>>): seq<FilterCall>
    requires forall i :: 0 <= i < |ids| ==> ids[i] in m
  {
    if |ids| == 0 then [] else Plan(ids[..|ids| - 1], m) + CallsOf(m[ids[|ids| - 1]])
  }

  /** One call on the frame; a filter object that does not exist is not called. */
  function Step(c: FilterCall, f: Frame, colorOn: bool, blurOn: bool, arm: ColorFilter.FloatAdjust): Frame
    requires f.width >= 0 && f.height >= 0 && |f.data| % 4 == 0
  {
    match c
    case ColorCall(kind, v) =>
      if colorOn then Frame(f.width, f.height, ColorFilter.Applied(f.data, kind, v, arm)) else f
    case BlurCall(radius) =>
      if blurOn then BlurFilter.BoxBlurred(f, radius) else f
  }

  /** The frame after the calls, first to last. */
  function Run(calls: seq<FilterCall>, f: Frame, colorOn: bool, blurOn: bool, arm: ColorFilter.FloatAdjust): (r: Frame)
    requires ValidFrame(f) && ColorFilter.KeepsFrames(arm)
    ensures ValidFrame(r) && r.width == f.width && r.height == f.height
  {
    if |calls| == 0 then f
    else
      var g := Run(calls[..|calls| - 1], f, colorOn, blurOn, arm);
      StepKeepsFrames(calls[|calls| - 1], g, colorOn, blurOn, arm);
      Step(calls[|calls| - 1], g, colorOn, blurOn, arm)
  }

  lemma StepKeepsFrames(c: FilterCall, f: Frame, colorOn: bool, blurOn: bool, arm: ColorFilter.FloatAdjust)
    requires ValidFrame(f) && ColorFilter.KeepsFrames(arm)
    ensures var g := Step(c, f, colorOn, blurOn, arm);
      ValidFrame(g) && g.width == f.width && g.height == f.height
  {
    match c
    case ColorCall(kind, v) =>
      ColorFilter.AppliedKeepsFrames(f.data, kind, v, arm);
    case BlurCall(radius) =>
      BlurFilter.BoxBlurValid(f, radius);
  }

  /** Without its filter objects (before initialize, after release) the pass changes nothing. */
  lemma {:induction false} NothingWithoutFilters(calls: seq<FilterCall>, f: Frame, arm: ColorFilter.FloatAdjust)
    requires ValidFrame(f) && ColorFilter.KeepsFrames(arm)
    ensures Run(calls, f, false, false, arm) == f
  {
    if |calls| > 0 {
      NothingWithoutFilters(calls[..|calls| - 1], f, arm);
    }
  }

  /** A list with only skipped types makes no call at all. */
  lemma {:induction false} SkippedListsCallNothing(fs: seq<FilterInstance>)
    requires forall i :: 0 <= i < |fs| ==> fs[i].filterType !in ColorTypes && fs[i].filterType !in BlurTypes
    ensures CallsOf(fs) == []
  {
    if |fs| > 0 {
      SkippedListsCallNothing(fs[..|fs| - 1]);
    }
  }

  // ---------------------------------------------------------------------
  // Lists of filters
  // ---------------------------------------------------------------------

  /** Ids within a list increase (each append takes a larger counter value). */
  predicate IdsIncreasing(fs: seq<FilterInstance>)
  {
    forall i, j :: 0 <= i < j < |fs| ==> fs[i].id < fs[j].id
  }

  predicate IdsBelow(fs: seq<FilterInstance>, bound: int)
  {
    forall i :: 0 <= i < |fs| ==> fs[i].id < bound
  }

  /** Where the scan of removeFilter and updateFilter stops: the first filter with the id, or |fs|. */
  function FirstWithId(fs: seq<FilterInstance>, id: int): (i: int)
    ensures 0 <= i <= |fs|
    ensures forall k :: 0 <= k < i ==> fs[k].id != id
    ensures i < |fs| ==> fs[i].id == id
  {
    if |fs| == 0 then 0
    else if fs[0].id == id then 0
    else 1 + FirstWithId(fs[1..], id)
  }

  function RemovedFirst(fs: seq<FilterInstance>, id: int): seq<FilterInstance>
  {
    var i := FirstWithId(fs, id);
    if i < |fs| then fs[..i] + fs[i + 1..] else fs
  }

  function UpdatedFirst(fs: seq<FilterInstance>, id: int, params: EffectParams): seq<FilterInstance>
  {
    var i := FirstWithId(fs, id);
    if i < |fs| then fs[i := fs[i].(params := params)] else fs
  }

  /** Dropping index i shifts the later filters down by one. */
  lemma DropAt(fs: seq<FilterInstance>, i: int)
    requires 0 <= i < |fs|
    ensures var r := fs[..i] + fs[i + 1..];
      |r| == |fs| - 1
      && (forall k :: 0 <= k < i ==> r[k] == fs[k])
      && (forall k :: i <= k < |r| ==> r[k] == fs[k + 1])
      && multiset(r) + multiset{fs[i]} == multiset(fs)
  {
    assert fs == fs[..i] + [fs[i]] + fs[i + 1..];
  }

  /** Removing keeps the other filters in order, and with increasing ids none with that id is left. */
  lemma RemovedFirstProperties(fs: seq<FilterInstance>, id: int, bound: int)
    requires IdsIncreasing(fs) && IdsBelow(fs, bound)
    ensures var r := RemovedFirst(fs, id);
      IdsIncreasing(r) && IdsBelow(r, bound)
      && (forall k :: 0 <= k < |r| ==> r[k].id != id)
      && (FirstWithId(fs, id) < |fs| ==> |r| == |fs| - 1 && multiset(r) + multiset{fs[FirstWithId(fs, id)]} == multiset(fs))
      && (FirstWithId(fs, id) == |fs| ==> r == fs)
  {
    var i := FirstWithId(fs, id);
    if i < |fs| {
      var r := fs[..i] + fs[i + 1..];
      DropAt(fs, i);
      forall k | 0 <= k < |r| ensures r[k].id != id {
        if k >= i {
          assert fs[i].id < fs[k + 1].id;
        }
      }
      forall a, b | 0 <= a < b < |r| ensures r[a].id < r[b].id {
        var a', b' := if a < i then a else a + 1, if b < i then b else b + 1;
        assert r[a] == fs[a'] && r[b] == fs[b'];
      }
    }
  }

  /** Updating changes only the params of the first match; ids and types stay. */
  lemma UpdatedFirstProperties(fs: seq<FilterInstance>, id: int, params: EffectParams)
    ensures var r := UpdatedFirst(fs, id, params);
      |r| == |fs|
      && (forall k :: 0 <= k < |fs| ==> r[k].id == fs[k].id && r[k].filterType == fs[k].filterType)
      && (forall k :: 0 <= k < |fs| && k != FirstWithId(fs, id) ==> r[k] == fs[k])
      && (FirstWithId(fs, id) < |fs| ==> r[FirstWithId(fs, id)].params == params)
  {
  }

  /** Appending a filter with a fresh, larger id keeps the list's ids increasing. */
  lemma AppendKeepsIds(fs: seq<FilterInstance>, f: FilterInstance)
    requires IdsIncreasing(fs) && IdsBelow(fs, f.id)
    ensures IdsIncreasing(fs + [f]) && IdsBelow(fs + [f], f.id + 1)
  {
  }

  /** Removing the filter just appended gives the list back. */
  lemma AddThenRemove(fs: seq<FilterInstance>, f: FilterInstance)
    requires IdsBelow(fs, f.id)
    ensures RemovedFirst(fs + [f], f.id) == fs
  {
    var s := fs + [f];
    assert forall k :: 0 <= k < |fs| ==> s[k].id != f.id;
    FirstWithIdUnique(s, f.id, |fs|);
    assert s[..|fs|] == fs;
  }

  // ---------------------------------------------------------------------
  // Ordered clip ids (std::map keeps its keys sorted)
  // ---------------------------------------------------------------------

  predicate StrictlySorted(s: seq<int>)
  {
    forall i, j :: 0 <= i < j < |s| ==> s[i] < s[j]
  }

  /** The keys after inserting k into the sorted keys s. */
  function InsertKey(s: seq<int>, k: int): seq<int>
  {
    if |s| == 0 then [k]
    else if k < s[0] then [k] + s
    else if k == s[0] then s
    else [s[0]] + InsertKey(s[1..], k)
  }

  lemma {:induction false} InsertKeyMembers(s: seq<int>, k: int)
    ensures forall x :: x in InsertKey(s, k) <==> x in s || x == k
  {
    if |s| > 0 && k > s[0] {
      InsertKeyMembers(s[1..], k);
      assert s == [s[0]] + s[1..];
    }
  }

  lemma {:induction false} InsertKeySorted(s: seq<int>, k: int)
    requires StrictlySorted(s)
    ensures StrictlySorted(InsertKey(s, k))
  {
    if |s| == 0 {
    } else if k < s[0] {
      var r := [k] + s;
      forall a, b | 0 <= a < b < |r| ensures r[a] < r[b] {
        assert r[b] == s[b - 1];
        if a > 0 {
          assert r[a] == s[a - 1];
        }
      }
    } else if k > s[0] {
      var t := s[1..];
      InsertKeySorted(t, k);
      InsertKeyMembers(t, k);
      var r := InsertKey(t, k);
      forall x | x in r ensures s[0] < x {
        if x != k {
          var j :| 0 <= j < |t| && t[j] == x;
          assert s[j + 1] == x;
        }
      }
      var q := [s[0]] + r;
      forall a, b | 0 <= a < b < |q| ensures q[a] < q[b] {
        assert q[b] == r[b - 1];
        if a == 0 {
          assert r[b - 1] in r;
        } else {
          assert q[a] == r[a - 1];
        }
      }
    }
  }

  // ---------------------------------------------------------------------
  // The manager
  // ---------------------------------------------------------------------

  class FilterManager {
    /** m_clipFilters: clip id to its filters, in insertion order. */
    var clipFilters: map<int, seq<FilterInstance>>
    /** The keys of clipFilters in the ascending order std::map visits them. */
    var clipIds: seq<int>
    var nextFilterId: int
    /** m_colorFilter and m_blurFilter exist. */
    var hasColorFilter: bool
    var hasBlurFilter: bool
    var initialized: bool

    ghost predicate Valid()
      reads this
    {
      nextFilterId >= 1
      && StrictlySorted(clipIds)
      && (forall i :: 0 <= i < |clipIds| ==> clipIds[i] in clipFilters)
      && (forall id :: id in clipFilters ==> id in clipIds)
      && (forall id :: id in clipFilters ==> IdsIncreasing(clipFilters[id]) && IdsBelow(clipFilters[id], nextFilterId))
    }

    constructor ()
      ensures Valid() && clipFilters == map[] && clipIds == [] && nextFilterId == 1
      ensures !hasColorFilter && !hasBlurFilter && !initialized
    {
      clipFilters := map[];
      clipIds := [];
      nextFilterId := 1;
      hasColorFilter := false;
      hasBlurFilter := false;
      initialized := false;
    }

    method Initialize() returns (ok: bool)
      requires Valid()
      modifies this`hasColorFilter, this`hasBlurFilter, this`initialized
      ensures Valid() && ok && hasColorFilter && hasBlurFilter && initialized
    {
      hasColorFilter := true;
      hasBlurFilter := true;
      initialized := true;
      return true;
    }

    /** release drops every list and both filter objects; the id counter keeps counting. */
    method Release()
      requires Valid()
      modifies this
      ensures Valid() && clipFilters == map[] && clipIds == []
      ensures !hasColorFilter && !hasBlurFilter && !initialized
      ensures nextFilterId == old(nextFilterId)
    {
      clipFilters := map[];
      clipIds := [];
      hasColorFilter := false;
      hasBlurFilter := false;
      initialized := false;
    }

    method AddFilter(clipId: int, filterType: string, params: EffectParams) returns (ok: bool)
      requires Valid()
      modifies this`clipFilters, this`clipIds, this`nextFilterId
      ensures Valid() && ok
      ensures nextFilterId == old(nextFilterId) + 1
      ensures clipFilters == old(clipFilters)[clipId :=
        (if clipId in old(clipFilters) then old(clipFilters)[clipId] else [])
        + [FilterInstance(old(nextFilterId), filterType, params)]]
      ensures clipIds == InsertKey(old(clipIds), clipId)
    {
      var filter := FilterInstance(nextFilterId, filterType, params);
      nextFilterId := nextFilterId + 1;
      var filters := if clipId in clipFilters then clipFilters[clipId] else [];
      InsertKeySorted(clipIds, clipId);
      InsertKeyMembers(clipIds, clipId);
      ghost var oldIds := clipIds;
      clipIds := InsertKey(clipIds, clipId);
      AppendKeepsIds(filters, filter);
      clipFilters := clipFilters[clipId := filters + [filter]];
      forall i | 0 <= i < |clipIds| ensures clipIds[i] in clipFilters {
        assert clipIds[i] in oldIds || clipIds[i] == clipId;
      }
      return true;
    }

    /** The scan of one clip's list for a filter id. */
    static method FindFilter(filters: seq<FilterInstance>, filterId: int) returns (i: int)
      ensures i == FirstWithId(filters, filterId)
    {
      i := 0;
      while i < |filters|
        invariant 0 <= i <= |filters|
        invariant forall k :: 0 <= k < i ==> filters[k].id != filterId
      {
        if filters[i].id == filterId {
          FirstWithIdUnique(filters, filterId, i);
          return;
        }
        i := i + 1;
      }
      FirstWithIdUnique(filters, filterId, i);
    }

    method RemoveFilter(clipId: int, filterId: int) returns (ok: bool)
      requires Valid()
      modifies this`clipFilters
      ensures Valid()
      ensures ok <==> clipId in old(clipFilters) && FirstWithId(old(clipFilters)[clipId], filterId) < |old(clipFilters)[clipId]|
      ensures clipFilters == if ok then old(clipFilters)[clipId := RemovedFirst(old(clipFilters)[clipId], filterId)] else old(clipFilters)
    {
      if clipId !in clipFilters {
        return false;
      }
      var filters := clipFilters[clipId];
      var i := FindFilter(filters, filterId);
      if i < |filters| {
        RemovedFirstProperties(filters, filterId, nextFilterId);
        clipFilters := clipFilters[clipId := filters[..i] + filters[i + 1..]];
        return true;
      }
      return false;
    }

    method UpdateFilter(clipId: int, filterId: int, params: EffectParams) returns (ok: bool)
      requires Valid()
      modifies this`clipFilters
      ensures Valid()
      ensures ok <==> clipId in old(clipFilters) && FirstWithId(old(clipFilters)[clipId], filterId) < |old(clipFilters)[clipId]|
      ensures clipFilters == if ok then old(clipFilters)[clipId := UpdatedFirst(old(clipFilters)[clipId], filterId, params)] else old(clipFilters)
    {
      if clipId !in clipFilters {
        return false;
      }
      var filters := clipFilters[clipId];
      var i := FindFilter(filters, filterId);
      if i < |filters| {
        UpdatedFirstProperties(filters, filterId, params);
        clipFilters := clipFilters[clipId := filters[i := filters[i].(params := params)]];
        return true;
      }
      return false;
    }

    /** The calls applyFilters makes, clips in ascending id order and each list in order. */
    function Calls(): seq<FilterCall>
      requires Valid()
      reads this
    {
      Plan(clipIds, clipFilters)
    }

    /** applyFilters: clipPath plays no part; every clip's filters run over the frame. */
    method ApplyFilters(data: array<int>, width: int, height: int, clipPath: string, arm: ColorFilter.FloatAdjust)
      requires Valid() && ColorFilter.KeepsFrames(arm)
      requires width >= 0 && height >= 0 && data.Length == width * height * 4 && AllBytes(data[..])
      modifies data
      ensures Frame(width, height, data[..]) == Run(Calls(), Frame(width, height, old(data[..])), hasColorFilter, hasBlurFilter, arm)
    {
      ghost var f0 := Frame(width, height, data[..]);
      var n := 0;
      while n < |clipIds|
        invariant 0 <= n <= |clipIds|
        invariant Frame(width, height, data[..]) == Run(Plan(clipIds[..n], clipFilters), f0, hasColorFilter, hasBlurFilter, arm)
      {
        PlanSnoc(clipIds, n, clipFilters);
        ApplyList(data, width, height, clipFilters[clipIds[n]], hasColorFilter, hasBlurFilter, arm,
                  f0, Plan(clipIds[..n], clipFilters));
        n := n + 1;
      }
      assert clipIds[..n] == clipIds;
    }
  }

  lemma PlanSnoc(ids: seq<int>, n: int, m: map<int, seq<FilterInstance>>)
    requires 0 <= n < |ids| && forall i :: 0 <= i < |ids| ==> ids[i] in m
    ensures Plan(ids[..n + 1], m) == Plan(ids[..n], m) + CallsOf(m[ids[n]])
  {
    assert ids[..n + 1][..n] == ids[..n];
  }

  lemma CallsOfSnoc(fs: seq<FilterInstance>, j: int)
    requires 0 <= j < |fs|
    ensures CallsOf(fs[..j + 1]) == CallsOf(fs[..j]) + (if CallFor(fs[j]).Some? then [CallFor(fs[j]).value] else [])
  {
    assert fs[..j + 1][..j] == fs[..j];
  }

  /** The inner loop of applyFilters: one clip's filters, in list order, after the calls already made. */
  method ApplyList(data: array<int>, width: int, height: int, filters: seq<FilterInstance>,
                   colorOn: bool, blurOn: bool, arm: ColorFilter.FloatAdjust, ghost f0: Frame, ghost done: seq<FilterCall>)
    requires ValidFrame(f0) && ColorFilter.KeepsFrames(arm)
    requires width >= 0 && height >= 0 && data.Length == width * height * 4
    requires Frame(width, height, data[..]) == Run(done, f0, colorOn, blurOn, arm)
    modifies data
    ensures Frame(width, height, data[..]) == Run(done + CallsOf(filters), f0, colorOn, blurOn, arm)
  {
    var j := 0;
    assert done + CallsOf(filters[..0]) == done;
    while j < |filters|
      invariant 0 <= j <= |filters|
      invariant Frame(width, height, data[..]) == Run(done + CallsOf(filters[..j]), f0, colorOn, blurOn, arm)
    {
      ghost var sofar := done + CallsOf(filters[..j]);
      CallsOfSnoc(filters, j);
      var call := CallFor(filters[j]);
      if call.Some? {
        ExecuteCall(data, width, height, call.value, colorOn, blurOn, arm);
        RunSnoc(sofar, call.value, f0, colorOn, blurOn, arm);
        assert done + CallsOf(filters[..j + 1]) == sofar + [call.value];
      } else {
        assert done + CallsOf(filters[..j + 1]) == sofar;
      }
      j := j + 1;
    }
    assert filters[..j] == filters;
  }

  lemma FirstWithIdUnique(fs: seq<FilterInstance>, id: int, i: int)
    requires 0 <= i <= |fs|
    requires forall k :: 0 <= k < i ==> fs[k].id != id
    requires i < |fs| ==> fs[i].id == id
    ensures FirstWithId(fs, id) == i
  {
  }

  lemma RunSnoc(calls: seq<FilterCall>, c: FilterCall, f: Frame, colorOn: bool, blurOn: bool, arm: ColorFilter.FloatAdjust)
    requires ValidFrame(f) && ColorFilter.KeepsFrames(arm)
    ensures Run(calls + [c], f, colorOn, blurOn, arm) == Step(c, Run(calls, f, colorOn, blurOn, arm), colorOn, blurOn, arm)
  {
    assert (calls + [c])[..|calls|] == calls;
  }

  /** One call of applyFilters on the frame buffer. */
  method ExecuteCall(data: array<int>, width: int, height: int, c: FilterCall, colorOn: bool, blurOn: bool,
                     arm: ColorFilter.FloatAdjust)
    requires ColorFilter.KeepsFrames(arm)
    requires width >= 0 && height >= 0 && data.Length == width * height * 4 && AllBytes(data[..])
    modifies data
    ensures Frame(width, height, data[..]) == Step(c, Frame(width, height, old(data[..])), colorOn, blurOn, arm)
    ensures AllBytes(data[..])
  {
    StepKeepsFrames(c, Frame(width, height, data[..]), colorOn, blurOn, arm);
    match c {
      case ColorCall(kind, v) =>
        if colorOn {
          ColorFilter.Apply(data, kind, v, arm);
        }
      case BlurCall(radius) =>
        if blurOn {
          BlurFilter.Apply(data, width, height, radius);
        }
    }
  }
}
