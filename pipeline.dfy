/** `process_data` from the R-peaks on: intervals and beat times, window
    boundaries, per-window baselines, the rule cascade with the thresholds
    0.15, 0.05 and 0.2, tagging and the merge by sample index. The low-pass
    filter, the beat detector and the amplitude mode are inputs. */
module Pipeline {
  import opened Sorting
  import opened Stats
  import opened Intervals
  import opened Baseline
  import opened Classifier
  import opened Assembly

  /** What the beat detector is taken to deliver: strictly increasing
      R-peaks, each a sample of the filtered signal. */
  predicate PeaksWellFormed(rPeaks: seq<int>, filtered: seq<real>) {
    StrictlyIncreasing(rPeaks) && forall k :: 0 <= k < |rPeaks| ==> 0 <= rPeaks[k] < |filtered|
  }

  /** The baselines can be computed: there is a first boundary and the
      window before it is not empty. */
  predicate HasFirstWindow(idx: seq<nat>) {
    |idx| > 0 && idx[0] > 0
  }

  /** The window boundaries the pipeline finds for these peaks. */
  function PipelineIndexes(rPeaks: seq<int>, fs: real, window: real): seq<nat>
    requires fs != 0.0
  {
    Boundaries(Times(rPeaks, fs), window)
  }

  /** Once a first window exists, the boundaries split the intervals into
      non-empty windows, and the intervals of increasing peaks are positive. */
  lemma PipelineDomain(rPeaks: seq<int>, filtered: seq<real>, fs: real, window: real)
    requires fs != 0.0 && PeaksWellFormed(rPeaks, filtered)
    requires HasFirstWindow(PipelineIndexes(rPeaks, fs, window))
    ensures AveragesDomain(Distances(rPeaks), PipelineIndexes(rPeaks, fs, window))
    ensures forall j :: 0 <= j < |Distances(rPeaks)| ==> Distances(rPeaks)[j] > 0
  {
    var times := Times(rPeaks, fs);
    BoundariesShape(times, window);
    var idx := PipelineIndexes(rPeaks, fs, window);
    assert idx[|idx| - 1] < |times|;
    DistancesPositive(rPeaks);
  }

  /** The classifier's input as the pipeline builds it. */
  function PipelineBeats(rPeaks: seq<int>, filtered: seq<real>, fs: real, window: real): Beats
    requires fs != 0.0 && PeaksWellFormed(rPeaks, filtered)
    requires HasFirstWindow(PipelineIndexes(rPeaks, fs, window))
  {
    PipelineDomain(rPeaks, filtered, fs, window);
    var d := Distances(rPeaks);
    var idx := PipelineIndexes(rPeaks, fs, window);
    Beats(filtered, d, Averages(d, idx), idx, rPeaks)
  }

  /** The classifier never divides by zero or indexes out of range on the
      pipeline's input: every baseline is positive. */
  lemma PipelineBeatsValid(rPeaks: seq<int>, filtered: seq<real>, fs: real, window: real)
    requires fs != 0.0 && PeaksWellFormed(rPeaks, filtered)
    requires HasFirstWindow(PipelineIndexes(rPeaks, fs, window))
    ensures Valid(PipelineBeats(rPeaks, filtered, fs, window))
    ensures forall k :: 0 <= k < |PipelineBeats(rPeaks, filtered, fs, window).averages| ==>
      PipelineBeats(rPeaks, filtered, fs, window).averages[k] > 0.0
  {
    PipelineDomain(rPeaks, filtered, fs, window);
    var b := PipelineBeats(rPeaks, filtered, fs, window);
    forall k | 0 <= k < |b.averages|
      ensures b.averages[k] > 0.0
    {
      WindowAveragePositive(b.distances, b.indexes, k);
    }
  }

  /** The four tier lists of `b` under the pipeline's thresholds, tagged
      and merged by sample index. */
  function MergedTiers(b: Beats, mode: real): seq<Loc>
    requires Valid(b)
  {
    var n := Examined(b);
    Merge(TierList(b, Default, mode, 1, n), TierList(b, Default, mode, 2, n),
          TierList(b, Default, mode, 3, n), TierList(b, Default, mode, 4, n))
  }

  /** With strictly increasing peaks the merge is strictly increasing by
      sample index: no beat is reported twice. */
  lemma MergedTiersStrictlySorted(b: Beats, mode: real)
    requires Valid(b) && StrictlyIncreasing(b.rPeaks)
    ensures StrictlySortedBy(MergedTiers(b, mode), IndexKey)
  {
    var n := Examined(b);
    var p25, p50, p75, p100 := TierList(b, Default, mode, 1, n), TierList(b, Default, mode, 2, n),
                               TierList(b, Default, mode, 3, n), TierList(b, Default, mode, 4, n);
    TierListIncreasing(b, Default, mode, 1, n);
    TierListIncreasing(b, Default, mode, 2, n);
    TierListIncreasing(b, Default, mode, 3, n);
    TierListIncreasing(b, Default, mode, 4, n);
    forall y | y in p25
      ensures y !in p50 && y !in p75 && y !in p100
    {
      TierListsDisjoint(b, Default, mode, 1, 2, y);
      TierListsDisjoint(b, Default, mode, 1, 3, y);
      TierListsDisjoint(b, Default, mode, 1, 4, y);
    }
    forall y | y in p50
      ensures y !in p75 && y !in p100
    {
      TierListsDisjoint(b, Default, mode, 2, 3, y);
      TierListsDisjoint(b, Default, mode, 2, 4, y);
    }
    forall y | y in p75
      ensures y !in p100
    {
      TierListsDisjoint(b, Default, mode, 3, 4, y);
    }
    MergeStrictlySorted(p25, p50, p75, p100);
  }

  /** `b` is well formed and some examined beat of it is the peak x and
      meets exactly t criteria under the pipeline's thresholds. */
  predicate BeatWithTier(b: Beats, mode: real, x: int, t: int) {
    Valid(b) && exists i :: 0 <= i < Examined(b) && Beat(b, i) == x && BeatTier(b, Default, mode, i) == t
  }

  /** `(x, t)` is in the merge exactly when x ends an examined interval
      whose beat meets exactly t >= 1 criteria. */
  lemma MergedTiersMembership(b: Beats, mode: real, x: int, t: int)
    requires Valid(b)
    ensures (x, t) in MergedTiers(b, mode) <==> 1 <= t <= 4 && BeatWithTier(b, mode, x, t)
  {
    var n := Examined(b);
    MergeSpec(TierList(b, Default, mode, 1, n), TierList(b, Default, mode, 2, n),
              TierList(b, Default, mode, 3, n), TierList(b, Default, mode, 4, n), x, t);
    if 1 <= t <= 4 {
      TierListMembership(b, Default, mode, t, n, x);
    }
  }

  /** The pipeline's result: the candidate locations of every tier, merged
      by sample index, or the failure to find a first window. */
  function Locs(fs: real, window: real, rPeaks: seq<int>, filtered: seq<real>, mode: real): Outcome<seq<Loc>>
    requires fs != 0.0 && PeaksWellFormed(rPeaks, filtered)
  {
    if !HasFirstWindow(PipelineIndexes(rPeaks, fs, window)) then Failure(EmptyFirstWindow)
    else
      PipelineBeatsValid(rPeaks, filtered, fs, window);
      Success(MergedTiers(PipelineBeats(rPeaks, filtered, fs, window), mode))
  }

  /** Runs the pipeline on detected R-peaks and the filtered signal: it
      fails exactly when no first window exists, and otherwise returns the
      merged candidate locations. */
  method ProcessData(fs: real, window: real, rPeaks: seq<int>, filtered: seq<real>, mode: real)
    returns (locs: Outcome<seq<Loc>>)
    requires fs != 0.0 && PeaksWellFormed(rPeaks, filtered)
    ensures locs.Failure? <==> !HasFirstWindow(PipelineIndexes(rPeaks, fs, window))
    ensures locs == Locs(fs, window, rPeaks, filtered, mode)
  {
    var distances, rPeakTimes := GetDistances(rPeaks, fs);
    var indexes := GetIndexes(rPeakTimes, window);
    if !(|indexes| > 0 && indexes[0] > 0) {
      return Failure(EmptyFirstWindow);
    }
    PipelineBeatsValid(rPeaks, filtered, fs, window);
    var averages := GetAverages(distances, indexes);
    var pvc25, pvc50, pvc75, pvc100, pvcCount :=
      ProcessPvc(filtered, distances, averages, indexes, rPeaks, 0.15, 0.05, 0.2, mode);
    var arr25 := GenerateArray(pvc25, 1);
    var arr50 := GenerateArray(pvc50, 2);
    var arr75 := GenerateArray(pvc75, 3);
    var arr100 := GenerateArray(pvc100, 4);
    locs := Success(SortBy(arr25 + arr50 + arr75 + arr100, IndexKey));
  }

  /** The located candidates: strictly increasing by sample index, so each
      beat appears at most once, and `(x, t)` is among them exactly when x
      ends an examined interval whose beat meets exactly t criteria, t >= 1. */
  lemma LocsSpec(fs: real, window: real, rPeaks: seq<int>, filtered: seq<real>, mode: real, x: int, t: int)
    requires fs != 0.0 && PeaksWellFormed(rPeaks, filtered)
    requires HasFirstWindow(PipelineIndexes(rPeaks, fs, window))
    ensures Locs(fs, window, rPeaks, filtered, mode).Success?
    ensures StrictlySortedBy(Locs(fs, window, rPeaks, filtered, mode).value, IndexKey)
    ensures (x, t) in Locs(fs, window, rPeaks, filtered, mode).value <==>
      1 <= t <= 4 && BeatWithTier(PipelineBeats(rPeaks, filtered, fs, window), mode, x, t)
  {
    PipelineBeatsValid(rPeaks, filtered, fs, window);
    var b := PipelineBeats(rPeaks, filtered, fs, window);
    assert Locs(fs, window, rPeaks, filtered, mode) == Success(MergedTiers(b, mode));
    MergedTiersStrictlySorted(b, mode);
    MergedTiersMembership(b, mode, x, t);
  }

  /** Every location reported as meeting all four criteria lies below the
      mode of the signal; those meeting three lie at or above it. */
  lemma LocsAmplitude(fs: real, window: real, rPeaks: seq<int>, filtered: seq<real>, mode: real, x: int)
    requires fs != 0.0 && PeaksWellFormed(rPeaks, filtered)
    requires Locs(fs, window, rPeaks, filtered, mode).Success?
    ensures (x, 4) in Locs(fs, window, rPeaks, filtered, mode).value ==> 0 <= x < |filtered| && filtered[x] < mode
    ensures (x, 3) in Locs(fs, window, rPeaks, filtered, mode).value ==> 0 <= x < |filtered| && filtered[x] >= mode
  {
    PipelineBeatsValid(rPeaks, filtered, fs, window);
    var b := PipelineBeats(rPeaks, filtered, fs, window);
    var n := Examined(b);
    var p25, p50, p75, p100 := TierList(b, Default, mode, 1, n), TierList(b, Default, mode, 2, n),
                               TierList(b, Default, mode, 3, n), TierList(b, Default, mode, 4, n);
    MergeSpec(p25, p50, p75, p100, x, 4);
    MergeSpec(p25, p50, p75, p100, x, 3);
    AmplitudeSplitsTopTiers(b, Default, mode, x);
  }
}
