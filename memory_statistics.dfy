/**
 * The memory counters pane of the inspector's timeline (`MemoryStatistics.js`):
 * the list of counter samples taken from timeline events, the window of
 * sample indexes that falls between the timeline's boundaries, the sample
 * under a horizontal position, and the value range of one counter over the
 * window. Times and x positions are JavaScript numbers, modelled as `real`;
 * the counts themselves are integers.
 */
module MemoryStatistics {
  import opened JsRuntime

  /** One sample: its time, the three counts, and the x position `_calculateXValues` gives it (`None` while unset). */
  datatype Counter = Counter(time: real, documentCount: int, nodeCount: int, listenerCount: int, x: Option<real>)

  /** The data of a timeline event that carries counters (`endTime` is `None` when absent). */
  datatype TimelineEventData = TimelineEventData(startTime: real, endTime: Option<real>,
                                                 documents: int, nodes: int, jsEventListeners: int)

  /** The three counter graphs, each with its value getter. */
  datatype CounterKind = Documents | Nodes | Listeners

  function ValueOf(kind: CounterKind, c: Counter): int
  {
    match kind
    case Documents => c.documentCount
    case Nodes => c.nodeCount
    case Listeners => c.listenerCount
  }

  /** `endTime || startTime`: an absent or zero end time falls back to the start time. */
  function SampleTime(e: TimelineEventData): real
  {
    if e.endTime.Some? && e.endTime.value != 0.0 then e.endTime.value else e.startTime
  }

  function Times(cs: seq<Counter>): (ts: seq<real>)
    ensures |ts| == |cs| && forall i :: 0 <= i < |cs| ==> ts[i] == cs[i].time
  {
    if cs == [] then [] else Times(cs[..|cs| - 1]) + [cs[|cs| - 1].time]
  }

  predicate Sorted(ts: seq<real>)
  {
    forall i, j :: 0 <= i < j < |ts| ==> ts[i] <= ts[j]
  }

  /** The last index whose time is at most `bound`, or -1 when there is none. */
  function LastAtMost(ts: seq<real>, bound: real): (k: int)
    ensures -1 <= k < |ts|
    ensures k >= 0 ==> ts[k] <= bound
    ensures forall j :: k < j < |ts| ==> ts[j] > bound
  {
    if ts == [] then -1
    else if ts[|ts| - 1] <= bound then |ts| - 1
    else LastAtMost(ts[..|ts| - 1], bound)
  }

  /**
   * The scan of `_calculateVisibleIndexes` from index `i` on, with the indexes
   * found so far: a time at or before `start` moves the first index, a time
   * after `end` stops the scan, any other time moves the last index.
   */
  function ScanFrom(ts: seq<real>, start: real, end: real, i: nat, first: int, last: int): (int, int)
    requires i <= |ts|
    decreases |ts| - i
  {
    if i == |ts| then (first, last)
    else if ts[i] <= start then ScanFrom(ts, start, end, i + 1, i, last)
    else if end < ts[i] then (first, last)
    else ScanFrom(ts, start, end, i + 1, first, i)
  }

  /** The (minimum, maximum) index pair of the visible window. */
  function VisibleIndexes(ts: seq<real>, start: real, end: real): (int, int)
  {
    ScanFrom(ts, start, end, 0, 0, |ts| - 1)
  }

  /** The window a sorted list gives, stated without the scan. */
  function SortedWindow(ts: seq<real>, start: real, end: real): (int, int)
  {
    var a := LastAtMost(ts, start);
    var b := LastAtMost(ts, end);
    (if a < 0 then 0 else a, if b > a then b else |ts| - 1)
  }

  lemma LastAtMostSnoc(ts: seq<real>, i: nat, bound: real)
    requires i < |ts|
    ensures LastAtMost(ts[..i + 1], bound) == if ts[i] <= bound then i else LastAtMost(ts[..i], bound)
  {
    assert ts[..i + 1][..i] == ts[..i];
  }

  /** When every time from `i` on is above `bound`, the prefix before `i` already decides. */
  lemma {:induction false} LastAtMostPrefix(ts: seq<real>, i: nat, bound: real)
    requires i <= |ts|
    requires forall j :: i <= j < |ts| ==> ts[j] > bound
    ensures LastAtMost(ts, bound) == LastAtMost(ts[..i], bound)
    decreases |ts| - i
  {
    if i == |ts| {
      assert ts[..i] == ts;
    } else {
      LastAtMostSnoc(ts, i, bound);
      LastAtMostPrefix(ts, i + 1, bound);
    }
  }

  /** The indexes the scan holds after the times before `i`, on a sorted list. */
  predicate Consistent(ts: seq<real>, start: real, end: real, i: nat, first: int, last: int)
    requires i <= |ts|
  {
    var a := LastAtMost(ts[..i], start);
    var b := LastAtMost(ts[..i], end);
    first == (if a < 0 then 0 else a) && last == (if b > a then b else |ts| - 1)
  }

  /** A time at or before `start` becomes the first index, and no earlier time lies in (`start`, `end`]. */
  lemma StepAtStart(ts: seq<real>, start: real, end: real, i: nat, first: int, last: int)
    requires Sorted(ts) && i < |ts| && ts[i] <= start && Consistent(ts, start, end, i, first, last)
    ensures Consistent(ts, start, end, i + 1, i, last)
  {
    LastAtMostSnoc(ts, i, start);
    LastAtMostSnoc(ts, i, end);
    if i > 0 {
      assert ts[i - 1] <= ts[i];
      LastAtMostSnoc(ts, i - 1, start);
    }
  }

  /** A time in (`start`, `end`] becomes the last index. */
  lemma StepInside(ts: seq<real>, start: real, end: real, i: nat, first: int, last: int)
    requires i < |ts| && start < ts[i] <= end && Consistent(ts, start, end, i, first, last)
    ensures Consistent(ts, start, end, i + 1, first, i)
  {
    LastAtMostSnoc(ts, i, start);
    LastAtMostSnoc(ts, i, end);
  }

  /** On a sorted list, once a time is past `end` the indexes found before it are final. */
  lemma StepPastEnd(ts: seq<real>, start: real, end: real, i: nat, first: int, last: int)
    requires Sorted(ts) && i < |ts| && start < ts[i] && end < ts[i] && Consistent(ts, start, end, i, first, last)
    ensures (first, last) == SortedWindow(ts, start, end)
  {
    forall j | i <= j < |ts|
      ensures ts[j] > start && ts[j] > end
    {
      assert ts[i] <= ts[j];
    }
    LastAtMostPrefix(ts, i, start);
    LastAtMostPrefix(ts, i, end);
  }

  /** On a sorted list, the scan from any consistent state ends in the sorted window. */
  lemma {:induction false} ScanFromSorted(ts: seq<real>, start: real, end: real, i: nat, first: int, last: int)
    requires Sorted(ts) && i <= |ts| && Consistent(ts, start, end, i, first, last)
    ensures ScanFrom(ts, start, end, i, first, last) == SortedWindow(ts, start, end)
    decreases |ts| - i
  {
    if i == |ts| {
      assert ts[..i] == ts;
    } else if ts[i] <= start {
      StepAtStart(ts, start, end, i, first, last);
      ScanFromSorted(ts, start, end, i + 1, i, last);
    } else if end < ts[i] {
      StepPastEnd(ts, start, end, i, first, last);
    } else {
      StepInside(ts, start, end, i, first, last);
      ScanFromSorted(ts, start, end, i + 1, first, i);
    }
  }

  /** On a sorted list the scan's window is the sorted window. */
  lemma VisibleIndexesSorted(ts: seq<real>, start: real, end: real)
    requires Sorted(ts)
    ensures VisibleIndexes(ts, start, end) == SortedWindow(ts, start, end)
  {
    assert ts[..0] == [];
    ScanFromSorted(ts, start, end, 0, 0, |ts| - 1);
  }

  /**
   * With sorted times: the minimum index is the last one at or before `start`
   * (0 when there is none); the maximum index is the last one in (`start`, `end`],
   * or the last index of the list when no time lies there; and the window is a
   * non-empty range of the list.
   */
  lemma VisibleWindowMeans(ts: seq<real>, start: real, end: real)
    requires Sorted(ts) && ts != []
    ensures var (lo, hi) := VisibleIndexes(ts, start, end);
            0 <= lo <= hi < |ts| &&
            (forall j :: lo < j < |ts| ==> ts[j] > start) &&
            ((exists j :: 0 <= j < |ts| && ts[j] <= start) <==> ts[lo] <= start)
    ensures var (lo, hi) := VisibleIndexes(ts, start, end);
            if exists j :: 0 <= j < |ts| && start < ts[j] <= end then
              start < ts[hi] <= end && forall j :: hi < j < |ts| ==> ts[j] > end
            else hi == |ts| - 1
  {
    VisibleIndexesSorted(ts, start, end);
    var a := LastAtMost(ts, start);
    var b := LastAtMost(ts, end);
    if exists j :: 0 <= j < |ts| && start < ts[j] <= end {
      var j :| 0 <= j < |ts| && start < ts[j] <= end;
      assert j <= b && a < j;
    }
  }

  /** Below the sample's x: an unset x (`undefined`) never compares above. */
  predicate LeftOf(x: real, statX: Option<real>)
  {
    statX.Some? && x < statX.value
  }

  class MemoryStatistics {
    var counters: seq<Counter>
    var minimumIndex: int
    var maximumIndex: int
    var minTime: real
    var maxTime: real

    /** The pane starts with no samples and the window of an empty list. */
    constructor ()
      ensures counters == [] && minimumIndex == 0 && maximumIndex == -1
    {
      counters := [];
      minimumIndex := 0;
      maximumIndex := -1;
      minTime := 0.0;
      maxTime := 0.0;
    }

    /** `reset`: the sample list is replaced by an empty one; the window is kept. */
    method Reset()
      modifies this
      ensures counters == []
      ensures minimumIndex == old(minimumIndex) && maximumIndex == old(maximumIndex)
      ensures minTime == old(minTime) && maxTime == old(maxTime)
    {
      counters := [];
    }

    /** `addTimlineEvent`: exactly one sample is appended, timed at the end time if truthy, else the start time. */
    method AddTimelineEvent(e: TimelineEventData)
      modifies this
      ensures |counters| == |old(counters)| + 1 && counters[..|old(counters)|] == old(counters)
      ensures counters[|counters| - 1] ==
                Counter(if e.endTime.Some? && e.endTime.value != 0.0 then e.endTime.value else e.startTime,
                        e.documents, e.nodes, e.jsEventListeners, None)
      ensures minimumIndex == old(minimumIndex) && maximumIndex == old(maximumIndex)
      ensures minTime == old(minTime) && maxTime == old(maxTime)
    {
      counters := counters + [Counter(SampleTime(e), e.documents, e.nodes, e.jsEventListeners, None)];
    }

    /**
     * `_calculateVisibleIndexes`, with the calculator's boundaries in seconds as
     * parameters: the window is the scan's (minimum, maximum) pair over the
     * sample times, in milliseconds; on a sorted non-empty list it is a
     * non-empty range of the list.
     */
    method CalculateVisibleIndexes(minimumBoundary: real, maximumBoundary: real)
      modifies this
      ensures counters == old(counters)
      ensures (minimumIndex, maximumIndex) == VisibleIndexes(Times(counters), minimumBoundary * 1000.0, maximumBoundary * 1000.0)
      ensures minTime == minimumBoundary * 1000.0 && maxTime == maximumBoundary * 1000.0
      ensures counters == [] ==> minimumIndex == 0 && maximumIndex == -1
      ensures counters != [] && Sorted(Times(counters)) ==> 0 <= minimumIndex <= maximumIndex < |counters|
    {
      var start := minimumBoundary * 1000.0;
      var end := maximumBoundary * 1000.0;
      ghost var ts := Times(counters);
      var firstIndex := 0;
      var lastIndex := |counters| - 1;
      var i := 0;
      while i < |counters|
        invariant 0 <= i <= |counters|
        invariant ScanFrom(ts, start, end, i, firstIndex, lastIndex) == VisibleIndexes(ts, start, end)
      {
        var time := counters[i].time;
        if time <= start {
          firstIndex := i;
        } else {
          if end < time {
            break;
          }
          lastIndex := i;
        }
        i := i + 1;
      }
      minimumIndex := firstIndex;
      maximumIndex := lastIndex;
      minTime := start;
      maxTime := end;
      if counters != [] && Sorted(ts) {
        VisibleWindowMeans(ts, start, end);
      }
    }

    /** The indexes `_recordIndexAt` reads exist: the range (min, max] lies within the list. */
    predicate RecordRangeInList()
      reads this
    {
      maximumIndex <= minimumIndex || (-1 <= minimumIndex && maximumIndex < |counters|)
    }

    /**
     * `_recordIndexAt`: the index just before the first j in (min, max] whose x
     * lies to the right of `x`, or max when there is none; it lies in [min, max]
     * whenever min <= max, and is min otherwise.
     */
    method RecordIndexAt(x: real) returns (r: int)
      requires RecordRangeInList()
      ensures minimumIndex <= maximumIndex ==> minimumIndex <= r <= maximumIndex
      ensures maximumIndex < minimumIndex ==> r == minimumIndex
      ensures forall j :: minimumIndex < j <= r ==> !LeftOf(x, counters[j].x)
      ensures minimumIndex <= r < maximumIndex ==> LeftOf(x, counters[r + 1].x)
    {
      var i := minimumIndex + 1;
      while i <= maximumIndex
        invariant i == minimumIndex + 1 || (-1 <= minimumIndex && minimumIndex + 1 < i <= maximumIndex + 1 <= |counters|)
        invariant forall j :: minimumIndex < j < i ==> !LeftOf(x, counters[j].x)
        decreases maximumIndex - i
      {
        var statX := counters[i].x;
        if statX.Some? && x < statX.value {
          break;
        }
        i := i + 1;
      }
      i := i - 1;
      r := i;
    }

    /** The indexes the window scan reads exist: [min, max] lies within the list. */
    predicate ValueRangeInList()
      reads this
    {
      counters == [] || maximumIndex < minimumIndex || (0 <= minimumIndex && maximumIndex < |counters|)
    }

    /**
     * The window scan of `_drawGraph` for one counter: nothing for an empty list
     * or an empty window; otherwise the least and greatest value over [min, max],
     * each of them taken by some sample there.
     */
    method ValueRange(kind: CounterKind) returns (minValue: Option<int>, maxValue: Option<int>)
      requires ValueRangeInList()
      ensures counters == [] || maximumIndex < minimumIndex ==> minValue.None? && maxValue.None?
      ensures counters != [] && minimumIndex <= maximumIndex ==>
                minValue.Some? && maxValue.Some? &&
                (forall i :: minimumIndex <= i <= maximumIndex ==>
                   minValue.value <= ValueOf(kind, counters[i]) <= maxValue.value) &&
                (exists i :: minimumIndex <= i <= maximumIndex && ValueOf(kind, counters[i]) == minValue.value) &&
                (exists i :: minimumIndex <= i <= maximumIndex && ValueOf(kind, counters[i]) == maxValue.value)
    {
      if counters == [] {
        return None, None;
      }
      minValue, maxValue := None, None;
      var i := minimumIndex;
      while i <= maximumIndex
        invariant i == minimumIndex || (0 <= minimumIndex < i <= maximumIndex + 1 <= |counters|)
        invariant minValue.None? <==> i == minimumIndex
        invariant maxValue.None? <==> i == minimumIndex
        invariant minValue.Some? ==> forall j :: minimumIndex <= j < i ==> minValue.value <= ValueOf(kind, counters[j])
        invariant maxValue.Some? ==> forall j :: minimumIndex <= j < i ==> ValueOf(kind, counters[j]) <= maxValue.value
        invariant minValue.Some? ==> exists j :: minimumIndex <= j < i && ValueOf(kind, counters[j]) == minValue.value
        invariant maxValue.Some? ==> exists j :: minimumIndex <= j < i && ValueOf(kind, counters[j]) == maxValue.value
        decreases maximumIndex - i
      {
        var value := ValueOf(kind, counters[i]);
        if minValue.None? || value < minValue.value {
          minValue := Some(value);
        }
        if maxValue.None? || value > maxValue.value {
          maxValue := Some(value);
        }
        i := i + 1;
      }
    }
  }
}
