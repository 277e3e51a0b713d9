/** Beat-interval extraction (`get_distances`), window-boundary detection
    over beat times (`get_indexes`) and the window-length guard of
    `get_signal_data`. Sample indices are integers, times and the sampling
    rate exact reals. */
module Intervals {
  import opened Sorting
  import opened Stats

  /** Why the pipeline stops: the window is longer than the recording, or
      there is no non-empty first window to average (the source's
      `IndexError` on `indexes[0]` or on an empty window's quartile). */
  datatype Error = WindowLongerThanData | EmptyFirstWindow

  datatype Outcome<T> = Success(value: T) | Failure(error: Error)

  /** RR intervals: the distance in samples between consecutive R-peaks.
      Like the source's `[None] * (len(r_peaks) - 1)`, an empty or
      one-element peak list yields no interval. */
  function Distances(rPeaks: seq<int>): seq<int> {
    if |rPeaks| == 0 then []
    else seq(|rPeaks| - 1, k requires 0 <= k < |rPeaks| - 1 => rPeaks[k + 1] - rPeaks[k])
  }

  /** The time in seconds of a sample index. */
  function Seconds(sample: int, fs: real): real
    requires fs != 0.0
  {
    sample as real / fs
  }

  /** Beat times in seconds: the peak that closes each interval, over `fs`. */
  function Times(rPeaks: seq<int>, fs: real): seq<real>
    requires |rPeaks| < 2 || fs != 0.0
  {
    if |rPeaks| == 0 then []
    else seq(|rPeaks| - 1, k requires 0 <= k < |rPeaks| - 1 => Seconds(rPeaks[k + 1], fs))
  }

  /** Fills a preallocated buffer with the RR intervals and appends the
      beat times, one beat per iteration. */
  method GetDistances(rPeaks: seq<int>, fs: real) returns (distances: seq<int>, times: seq<real>)
    requires |rPeaks| < 2 || fs != 0.0
    ensures |distances| == |times| == if |rPeaks| == 0 then 0 else |rPeaks| - 1
    ensures distances == Distances(rPeaks) && times == Times(rPeaks, fs)
  {
    var n := if |rPeaks| == 0 then 0 else |rPeaks| - 1;
    var buffer := new int[n];
    times := [];
    var i := 1;
    while i < |rPeaks|
      invariant 1 <= i <= if |rPeaks| == 0 then 1 else |rPeaks|
      invariant |times| == i - 1
      invariant forall k :: 0 <= k < i - 1 ==> buffer[k] == rPeaks[k + 1] - rPeaks[k]
      invariant forall k :: 0 <= k < i - 1 ==> times[k] == Seconds(rPeaks[k + 1], fs)
    {
      buffer[i - 1] := rPeaks[i] - rPeaks[i - 1];
      times := times + [Seconds(rPeaks[i], fs)];
      i := i + 1;
    }
    distances := buffer[..];
    DistancesPointwise(rPeaks, distances);
    TimesPointwise(rPeaks, fs, times);
  }

  /** A sequence with the interval of every consecutive pair of peaks is
      the interval list. */
  lemma DistancesPointwise(rPeaks: seq<int>, distances: seq<int>)
    requires |distances| == if |rPeaks| == 0 then 0 else |rPeaks| - 1
    requires forall k :: 0 <= k < |distances| ==> distances[k] == rPeaks[k + 1] - rPeaks[k]
    ensures distances == Distances(rPeaks)
  {
  }

  /** A sequence with the time of every closing peak is the time list. */
  lemma TimesPointwise(rPeaks: seq<int>, fs: real, times: seq<real>)
    requires |rPeaks| < 2 || fs != 0.0
    requires |times| == if |rPeaks| == 0 then 0 else |rPeaks| - 1
    requires forall k :: 0 <= k < |times| ==> times[k] == Seconds(rPeaks[k + 1], fs)
    ensures times == Times(rPeaks, fs)
  {
  }

  /** Strictly increasing peaks give positive intervals. */
  lemma DistancesPositive(rPeaks: seq<int>)
    requires StrictlyIncreasing(rPeaks)
    ensures forall k :: 0 <= k < |Distances(rPeaks)| ==> Distances(rPeaks)[k] > 0
  {
    var d := Distances(rPeaks);
    forall k | 0 <= k < |d|
      ensures d[k] > 0
    {
      assert d[k] == rPeaks[k + 1] - rPeaks[k];
      assert rPeaks[k] < rPeaks[k + 1];
    }
  }

  /** The RR intervals tile the span from the first to the last beat. */
  lemma {:induction false} DistancesTelescope(rPeaks: seq<int>)
    requires |rPeaks| > 0
    ensures Sum(Distances(rPeaks)) == rPeaks[|rPeaks| - 1] - rPeaks[0]
  {
    if |rPeaks| > 1 {
      var tail := rPeaks[1..];
      DistancesTelescope(tail);
      DistancesCons(rPeaks);
      SumCons(rPeaks[1] - rPeaks[0], Distances(tail));
    }
  }

  /** The first interval followed by the intervals of the remaining peaks. */
  lemma DistancesCons(rPeaks: seq<int>)
    requires |rPeaks| > 1
    ensures Distances(rPeaks) == [rPeaks[1] - rPeaks[0]] + Distances(rPeaks[1..])
  {
    var d, e := Distances(rPeaks), [rPeaks[1] - rPeaks[0]] + Distances(rPeaks[1..]);
    assert |d| == |e|;
    forall k | 0 <= k < |d|
      ensures d[k] == e[k]
    {
      if k > 0 {
        assert e[k] == Distances(rPeaks[1..])[k - 1];
      }
    }
  }

  /** Window boundaries found while scanning `times` from position `i` with
      the multiplier at `m`: a beat is a boundary when its time has reached
      `m * window`, and each boundary moves the multiplier on by one. */
  function BoundariesFrom(times: seq<real>, window: real, i: nat, m: int): seq<nat>
    requires i <= |times|
    decreases |times| - i
  {
    if i == |times| then []
    else if times[i] >= Multiple(m, window) then [i] + BoundariesFrom(times, window, i + 1, m + 1)
    else BoundariesFrom(times, window, i + 1, m)
  }

  /** The time at which window `m` ends: `m` window lengths. */
  function Multiple(m: int, window: real): real {
    m as real * window
  }

  function Boundaries(times: seq<real>, window: real): seq<nat> {
    BoundariesFrom(times, window, 0, 1)
  }

  /** Every time at positions lo..hi-1 is below `bound`. */
  predicate AllBelow(times: seq<real>, lo: int, hi: int, bound: real)
    requires 0 <= lo && hi <= |times|
  {
    forall p :: lo <= p < hi ==> times[p] < bound
  }

  /** Where the search for boundary k of `r` begins when scanning from `i`. */
  function SearchStart(r: seq<nat>, i: nat, k: nat): nat
    requires k <= |r|
  {
    if k == 0 then i else r[k - 1] + 1
  }

  /** The boundaries found from position `i` are strictly increasing
      positions of `times` at or after `i`: at most one per beat. */
  lemma {:induction false} BoundariesFromRange(times: seq<real>, window: real, i: nat, m: int)
    requires i <= |times|
    ensures var r := BoundariesFrom(times, window, i, m);
      |r| <= |times| - i && StrictlyIncreasing(r) &&
      forall k :: 0 <= k < |r| ==> i <= r[k] < |times|
    decreases |times| - i
  {
    if i < |times| {
      if times[i] >= Multiple(m, window) {
        BoundariesFromRange(times, window, i + 1, m + 1);
      } else {
        BoundariesFromRange(times, window, i + 1, m);
      }
    }
  }

  /** The k-th of the positions `r` is a beat that has reached `m + k`
      window lengths. */
  predicate Reached(times: seq<real>, window: real, r: seq<nat>, m: int) {
    forall k :: 0 <= k < |r| ==> r[k] < |times| && times[r[k]] >= Multiple(m + k, window)
  }

  /** The k-th boundary found with the multiplier starting at `m` has
      reached `m + k` window lengths. */
  lemma {:induction false} BoundariesFromReach(times: seq<real>, window: real, i: nat, m: int)
    requires i <= |times|
    ensures Reached(times, window, BoundariesFrom(times, window, i, m), m)
    decreases |times| - i
  {
    var r := BoundariesFrom(times, window, i, m);
    if i < |times| {
      if times[i] >= Multiple(m, window) {
        var rest := BoundariesFrom(times, window, i + 1, m + 1);
        BoundariesFromReach(times, window, i + 1, m + 1);
        assert r == [i] + rest;
        forall k | 0 <= k < |r|
          ensures r[k] < |times| && times[r[k]] >= Multiple(m + k, window)
        {
          if k > 0 {
            assert r[k] == rest[k - 1];
            assert rest[k - 1] < |times| && times[rest[k - 1]] >= Multiple((m + 1) + (k - 1), window);
            assert m + k == (m + 1) + (k - 1);
          }
        }
      } else {
        BoundariesFromReach(times, window, i + 1, m);
        assert r == BoundariesFrom(times, window, i + 1, m);
      }
    }
  }

  /** Each of the positions `r` is the first beat after the previous one
      (after `i` for the first) that reaches its multiple. */
  predicate FirstToReach(times: seq<real>, window: real, r: seq<nat>, i: nat, m: int) {
    forall k :: 0 <= k < |r| ==>
      SearchStart(r, i, k) <= r[k] <= |times| &&
      AllBelow(times, SearchStart(r, i, k), r[k], Multiple(m + k, window))
  }

  /** Each boundary is the FIRST beat after the previous one (or after `i`)
      to reach its multiple: the beats skipped before it are all below. */
  lemma {:induction false} BoundariesFromFirst(times: seq<real>, window: real, i: nat, m: int)
    requires i <= |times|
    ensures FirstToReach(times, window, BoundariesFrom(times, window, i, m), i, m)
    decreases |times| - i
  {
    if i < |times| {
      if times[i] >= Multiple(m, window) {
        BoundariesFromFirst(times, window, i + 1, m + 1);
        FirstToReachHit(times, window, BoundariesFrom(times, window, i + 1, m + 1), i, m);
      } else {
        BoundariesFromFirst(times, window, i + 1, m);
        FirstToReachMiss(times, window, BoundariesFrom(times, window, i + 1, m), i, m);
      }
    }
  }

  /** A beat that reaches window `m` becomes the first boundary. */
  lemma FirstToReachHit(times: seq<real>, window: real, rest: seq<nat>, i: nat, m: int)
    requires i < |times| && times[i] >= Multiple(m, window)
    requires FirstToReach(times, window, rest, i + 1, m + 1)
    ensures FirstToReach(times, window, [i] + rest, i, m)
  {
    var r := [i] + rest;
    forall k | 0 <= k < |r|
      ensures SearchStart(r, i, k) <= r[k] <= |times|
      ensures AllBelow(times, SearchStart(r, i, k), r[k], Multiple(m + k, window))
    {
      if k > 0 {
        ShiftedBoundary(times, window, rest, i, m, k);
      }
    }
  }

  /** Boundary k of `[i] + rest` is boundary k - 1 of `rest`, searched for
      with the multiplier one further on. */
  lemma ShiftedBoundary(times: seq<real>, window: real, rest: seq<nat>, i: nat, m: int, k: nat)
    requires 0 < k <= |rest|
    requires FirstToReach(times, window, rest, i + 1, m + 1)
    ensures var r := [i] + rest;
      SearchStart(r, i, k) <= r[k] <= |times| &&
      AllBelow(times, SearchStart(r, i, k), r[k], Multiple(m + k, window))
  {
    var r := [i] + rest;
    var start := SearchStart(rest, i + 1, k - 1);
    assert start <= rest[k - 1] <= |times|;
    assert AllBelow(times, start, rest[k - 1], Multiple((m + 1) + (k - 1), window));
    assert r[k] == rest[k - 1];
    assert SearchStart(r, i, k) == start;
    assert m + k == (m + 1) + (k - 1);
  }

  /** A beat below window `m` is skipped: it joins the beats before the
      first boundary. */
  lemma FirstToReachMiss(times: seq<real>, window: real, r: seq<nat>, i: nat, m: int)
    requires i < |times| && times[i] < Multiple(m, window)
    requires FirstToReach(times, window, r, i + 1, m)
    ensures FirstToReach(times, window, r, i, m)
  {
    forall k | 0 <= k < |r|
      ensures SearchStart(r, i, k) <= r[k] <= |times|
      ensures AllBelow(times, SearchStart(r, i, k), r[k], Multiple(m + k, window))
    {
      if k == 0 {
        assert SearchStart(r, i + 1, 0) <= r[0] <= |times|;
        assert AllBelow(times, i + 1, r[0], Multiple(m + 0, window));
        assert times[i] < Multiple(m + 0, window);
      } else {
        assert SearchStart(r, i, k) == SearchStart(r, i + 1, k);
      }
    }
  }

  /** No beat after the last of the positions `r` reaches the next multiple. */
  predicate NoneAfter(times: seq<real>, window: real, r: seq<nat>, i: nat, m: int) {
    SearchStart(r, i, |r|) <= |times| &&
    AllBelow(times, SearchStart(r, i, |r|), |times|, Multiple(m + |r|, window))
  }

  /** No beat after the last boundary reaches the next multiple. */
  lemma {:induction false} BoundariesFromRest(times: seq<real>, window: real, i: nat, m: int)
    requires i <= |times|
    ensures NoneAfter(times, window, BoundariesFrom(times, window, i, m), i, m)
    decreases |times| - i
  {
    var r := BoundariesFrom(times, window, i, m);
    BoundariesFromRange(times, window, i, m);
    if i < |times| {
      if times[i] >= Multiple(m, window) {
        var rest := BoundariesFrom(times, window, i + 1, m + 1);
        BoundariesFromRest(times, window, i + 1, m + 1);
        assert r == [i] + rest;
        assert SearchStart(r, i, |r|) == SearchStart(rest, i + 1, |rest|);
        assert m + |r| == (m + 1) + |rest|;
      } else {
        BoundariesFromRest(times, window, i + 1, m);
        assert r == BoundariesFrom(times, window, i + 1, m);
        if |r| == 0 {
          assert AllBelow(times, i + 1, |times|, Multiple(m, window));
        }
      }
    }
  }

  /** Scans the beat times once, recording a boundary each time a beat
      first reaches the next multiple of the window. */
  method GetIndexes(times: seq<real>, window: real) returns (indexes: seq<nat>)
    ensures indexes == Boundaries(times, window)
    ensures |indexes| <= |times| && StrictlyIncreasing(indexes)
    ensures Reached(times, window, indexes, 1)
    ensures FirstToReach(times, window, indexes, 0, 1) && NoneAfter(times, window, indexes, 0, 1)
  {
    indexes := [];
    var multiplier := 1;
    for i := 0 to |times|
      invariant multiplier == |indexes| + 1
      invariant indexes + BoundariesFrom(times, window, i, multiplier) == Boundaries(times, window)
    {
      if times[i] >= Multiple(multiplier, window) {
        indexes := indexes + [i];
        multiplier := multiplier + 1;
      }
    }
    BoundariesShape(times, window);
  }

  /** The boundaries are strictly increasing beat positions, at most one
      per beat; the k-th is the first beat after the previous boundary to
      reach k + 1 window lengths, and no beat after the last one reaches
      the next multiple. */
  lemma BoundariesShape(times: seq<real>, window: real)
    ensures |Boundaries(times, window)| <= |times|
    ensures StrictlyIncreasing(Boundaries(times, window))
    ensures Reached(times, window, Boundaries(times, window), 1)
    ensures FirstToReach(times, window, Boundaries(times, window), 0, 1)
    ensures NoneAfter(times, window, Boundaries(times, window), 0, 1)
  {
    BoundariesFromRange(times, window, 0, 1);
    BoundariesFromReach(times, window, 0, 1);
    BoundariesFromFirst(times, window, 0, 1);
    BoundariesFromRest(times, window, 0, 1);
  }

  /** When no beat from position `i` on reaches window `m`, the scan
      finds no further boundary. */
  lemma {:induction false} NoBoundaryFrom(times: seq<real>, window: real, i: nat, m: int)
    requires i <= |times|
    requires AllBelow(times, i, |times|, Multiple(m, window))
    ensures BoundariesFrom(times, window, i, m) == []
    decreases |times| - i
  {
    if i < |times| {
      NoBoundaryFrom(times, window, i + 1, m);
    }
  }

  /** With no beat time reaching the first window there is no boundary. */
  lemma NoBoundaryBeforeFirstWindow(times: seq<real>, window: real)
    requires forall p :: 0 <= p < |times| ==> times[p] < window
    ensures Boundaries(times, window) == []
  {
    assert Multiple(1, window) == window;
    NoBoundaryFrom(times, window, 0, 1);
  }

  /** The guard of `get_signal_data`: a window longer than the recording
      (length over sampling rate, in seconds) is refused. */
  function CheckedSignal(data: seq<real>, fs: real, window: real): (r: Outcome<seq<real>>)
    requires fs != 0.0
    ensures r.Success? ==> r.value == data
    ensures fs > 0.0 ==> (r.Success? <==> window * fs <= |data| as real)
  {
    var seconds := |data| as real / fs;
    if window > seconds then Failure(WindowLongerThanData) else Success(data)
  }

  /** The guard refuses only recordings in which no window boundary could
      be found: every peak lies inside the data, so no beat time reaches
      a window longer than the recording. */
  lemma GuardRefusesOnlyWindowlessRecordings(data: seq<real>, fs: real, window: real, rPeaks: seq<int>)
    requires fs > 0.0
    requires forall k :: 0 <= k < |rPeaks| ==> 0 <= rPeaks[k] < |data|
    requires CheckedSignal(data, fs, window).Failure?
    ensures Boundaries(Times(rPeaks, fs), window) == []
  {
    var times := Times(rPeaks, fs);
    forall p | 0 <= p < |times|
      ensures times[p] < window
    {
      assert times[p] == Seconds(rPeaks[p + 1], fs);
      assert rPeaks[p + 1] as real < |data| as real;
      assert times[p] * fs == rPeaks[p + 1] as real;
    }
    NoBoundaryBeforeFirstWindow(times, window);
  }
}
