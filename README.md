# PVC classification pipeline, modelled in Dafny

This project models the classification core of a Holter-monitor analysis
program (`pvc_detect_two.py`). The core flags candidate premature
ventricular contractions (PVCs) in an ECG recording. Starting from the
R-peak sample indices found by a beat detector, the filtered signal and
the sampling rate, it:

1. computes the RR intervals (distances between consecutive R-peaks) and
   the beat times in seconds (`get_distances`);
2. splits the beats into fixed-length time windows (`get_indexes`);
3. computes one baseline RR interval per window: the mean of the window
   after interquartile-range outlier trimming (`remove_outliers`,
   `get_averages`); the trailing window is averaged untrimmed;
4. runs a four-stage rule cascade over every examined interval
   (`process_pvc`). The stages are prematurity, a compensatory pause,
   symmetry of the two intervals around the baseline, and amplitude below
   the signal's mode. The cascade sorts each beat into one of four tier
   lists by the number of criteria it meets;
5. tags each list with its tier (`generate_array`) and merges the four
   lists into one list of `(sample index, tier)` pairs ordered by sample
   index.

The project also models the window-length guard of `get_signal_data` and
the amplitude lookup `get_y_vals`.

The source builds every list step by step in a loop. So each stage is a
method with a loop, proved against a specification function. The
properties the pipeline relies on are lemmas about those functions. The
Dafny modules are:

- `Sorting`: the sort used for `np.sort` and `sorted`, with its proofs
  of order and permutation.
- `Stats`: the mean.
- `Intervals`: intervals, beat times, window boundaries and the guard.
- `Baseline`: trimming and the per-window baselines.
- `Classifier`: the cascade and its window cursor.
- `Assembly`: tagging, the amplitude lookup and the merge.
- `Pipeline`: `process_data` from the R-peaks on.

Behaviour of the code worth knowing:

- The trailing window's baseline is the mean of the untrimmed window
  (`pvc_detect_two.py:89`); every other window is trimmed first.
- Trimming is not idempotent. Trimming an already trimmed window can
  remove more values, because the quartiles of the trimmed window are
  tighter (`Baseline.TrimNotIdempotent`).
- An empty or one-element peak list gives no intervals and no
  boundaries, so `indexes[0]` raises `IndexError` at
  `pvc_detect_two.py:84`. An empty first window raises `IndexError` in
  `remove_outliers` at `pvc_detect_two.py:122`. The model reports both
  as `Failure(EmptyFirstWindow)`.
- A beat that is not premature goes into none of the four lists. A
  premature beat goes into exactly one: the pop-then-append moves it up
  one list per stage it passes.
- A beat whose index equals a window boundary is measured against the
  previous window's baseline, because the cursor moves only when
  `i > indexes[count]` (`pvc_detect_two.py:157`).

## Model

| member | source | states |
|---|---|---|
| Sorting.InsertPermutes | pvc_detect_two.py:118 | inserting into a sorted run adds exactly the inserted element (multiset) |
| Sorting.SortByPermutes | pvc_detect_two.py:118 | the sort is a permutation of its input |
| Sorting.InsertSorted | pvc_detect_two.py:118 | inserting into a run ordered by key keeps it ordered |
| Sorting.SortBySorted | pvc_detect_two.py:118 | the sorted sequence is ordered by its key (`np.sort`, `sorted(..., key=...)`) |
| Sorting.InsertStrictlySorted | pvc_detect_two.py:236 | inserting an element whose key is new into a strictly ordered run keeps it strictly ordered |
| Sorting.SortByStrictlySorted | pvc_detect_two.py:236 | when no two elements share a key, the sorted sequence is strictly increasing by key |
| Sorting.KeysDistinctAppend | pvc_detect_two.py:234 | concatenating key-distinct sequences with disjoint key sets keeps keys distinct |
| Stats.SumBetween | pvc_detect_two.py:84-89 | a sum of n values within [lo, hi] lies within [n*lo, n*hi] |
| Stats.MeanBetween | pvc_detect_two.py:84-89 | the mean of values within [lo, hi] lies within [lo, hi] |
| Stats.SumAtLeast | pvc_detect_two.py:84-89 | a sum of n values each at least lo is at least n*lo |
| Stats.MeanPositive | pvc_detect_two.py:84-89 | the mean of positive values is positive |
| Intervals.GetDistances | pvc_detect_two.py:49-55 | returns `len(r_peaks) - 1` intervals (none for an empty list) with `distances[k] == r_peaks[k+1] - r_peaks[k]`, and as many times `r_peaks[k+1] / fs` |
| Intervals.DistancesPositive | pvc_detect_two.py:49-52 | strictly increasing peaks give positive intervals |
| Intervals.DistancesTelescope | pvc_detect_two.py:49-52 | the intervals sum to the span from the first to the last peak |
| Intervals.BoundariesFromRange | pvc_detect_two.py:66-72 | boundaries found from position i are strictly increasing positions at or after i, at most one per beat |
| Intervals.BoundariesFromReach | pvc_detect_two.py:66-72 | the k-th boundary found with the multiplier at m has time at least (m + k) window lengths |
| Intervals.BoundariesFromFirst | pvc_detect_two.py:66-72 | each boundary is the first beat after the previous boundary to reach its multiple |
| Intervals.BoundariesFromRest | pvc_detect_two.py:66-72 | no beat after the last boundary reaches the next multiple |
| Intervals.GetIndexes | pvc_detect_two.py:66-72 | the loop's result is the boundary list: at most one per beat, strictly increasing, the k-th reaching (k+1) windows and the first to do so after the previous one, with no later beat reaching the next multiple |
| Intervals.BoundariesShape | pvc_detect_two.py:66-72 | the same shape facts for the specification function |
| Intervals.NoBoundaryFrom | pvc_detect_two.py:68-71 | when no beat from i on reaches window m, no further boundary is found |
| Intervals.NoBoundaryBeforeFirstWindow | pvc_detect_two.py:66-72 | with every beat time below one window there are no boundaries |
| Intervals.CheckedSignal | pvc_detect_two.py:35-37 | a successful guard returns the data unchanged; with a positive rate it fails exactly when the window is longer than `len(data) / fs` seconds |
| Intervals.GuardRefusesOnlyWindowlessRecordings | pvc_detect_two.py:35-37 | every recording the guard refuses would have produced no window boundary from peaks inside the data |
| Baseline.Quartiles | pvc_detect_two.py:118-123 | the first quartile is at most the third, and both are values of the window |
| Baseline.QuartilesOfSorted | pvc_detect_two.py:118-123 | for an ascending window the quartiles are the values at positions n/4 and 3n/4 |
| Baseline.KeepSpec | pvc_detect_two.py:125-130 | the kept values are a sub-multiset of the window, all within the fences, and every window value within the fences is kept |
| Baseline.KeepAppend | pvc_detect_two.py:127-129 | the filter distributes over concatenation, so the kept values keep their original order |
| Baseline.KeepAll | pvc_detect_two.py:127-129 | a window entirely within the fences is kept whole |
| Baseline.FirstQuartileKept | pvc_detect_two.py:120-128 | the first quartile always lies within the fences |
| Baseline.Trim | pvc_detect_two.py:118-130 | trimming a non-empty window never yields an empty list |
| Baseline.RemoveOutliers | pvc_detect_two.py:118-130 | the loop's result equals the trimming function |
| Baseline.TrimSpec | pvc_detect_two.py:118-130 | the trimmed window is non-empty and holds exactly the window's values within the fences of its quartiles |
| Baseline.TrimNotIdempotent | pvc_detect_two.py:118-130 | for any x > 0, [0, x, x, x, 2x, 10x] trims to [0, x, x, x, 2x] and then to [x, x, x]: trimming twice differs from trimming once |
| Baseline.TrimDropsLargest | pvc_detect_two.py:118-130 | trimming [0, x, x, x, 2x, 10x] drops only 10x |
| Baseline.TrimDropsEnds | pvc_detect_two.py:118-130 | trimming [0, x, x, x, 2x] drops 0 and 2x |
| Baseline.Window | pvc_detect_two.py:84-89 | every window the boundaries define is non-empty |
| Baseline.WindowAveragePositive | pvc_detect_two.py:84-89 | positive intervals give a positive baseline for every window |
| Baseline.FirstAverage | pvc_detect_two.py:84 | the first baseline is the mean of the trimmed `distances[0:indexes[0]]` |
| Baseline.MiddleAverage | pvc_detect_two.py:85-88 | baseline i is the mean of the trimmed `distances[indexes[i-1]:indexes[i]]` |
| Baseline.TrailingAverage | pvc_detect_two.py:89 | the last baseline is the mean of the untrimmed `distances[indexes[-1]:]` |
| Baseline.GetAverages | pvc_detect_two.py:83-90 | the loop returns one baseline per window, `len(indexes) + 1` values, each the mean of its window |
| Classifier.TierOf | pvc_detect_two.py:159-177 | a beat reaches tier k exactly when it meets the first k criteria in order; tier 4 exactly when its amplitude is also below the mode |
| Classifier.SymmetricPairReachesAmplitudeTest | pvc_detect_two.py:159-177 | intervals 60 then 140 against a baseline of 100 pass the first three stages, and the amplitude decides between tiers 3 and 4 |
| Classifier.Cursor | pvc_detect_two.py:148-158 | the window cursor never exceeds `len(indexes)`, so `averages[count]` is in range, and never exceeds the beat number |
| Classifier.CursorMonotone | pvc_detect_two.py:156-158 | the cursor never moves back and moves on by at most one per beat |
| Classifier.CursorWindow | pvc_detect_two.py:157-159 | the cursor at beat i selects the window with `indexes[c-1] < i <= indexes[c]` |
| Classifier.TierListStep | pvc_detect_two.py:160-177 | examining one more beat appends it to the list of its own tier and leaves the other lists unchanged |
| Classifier.ProcessPvc | pvc_detect_two.py:147-178 | the push-then-pop loop leaves each list equal to the beats of its tier in examination order; `pvc_count` equals the length of the tier-4 list |
| Classifier.TierListMembership | pvc_detect_two.py:156-177 | a peak is in a tier list exactly when it ends an examined interval whose beat has that tier |
| Classifier.TierListIncreasing | pvc_detect_two.py:156-177 | with strictly increasing peaks every tier list is strictly increasing |
| Classifier.BeatInOwnTierOnly | pvc_detect_two.py:160-177 | an examined beat is in a list exactly when the list is that of its own tier |
| Classifier.TierListStages | pvc_detect_two.py:159-177 | a peak is in tier list t exactly when some examined beat at that peak meets exactly the criteria of tier t |
| Classifier.ListedIffPremature | pvc_detect_two.py:159-161 | an examined beat is in some tier list exactly when it is premature against its baseline |
| Classifier.TierListsDisjoint | pvc_detect_two.py:160-177 | no peak is in two tier lists |
| Classifier.AmplitudeSplitsTopTiers | pvc_detect_two.py:174-176 | tier-4 peaks have an amplitude below the mode; tier-3 peaks have one at or above it |
| Assembly.GenerateArray | pvc_detect_two.py:243-248 | pairs every index with the tag, keeping length and order |
| Assembly.GetYVals | pvc_detect_two.py:141-144 | returns `signal[idx[k]]` for every k, with as many values as indexes |
| Assembly.TaggedMembership | pvc_detect_two.py:243-248 | a pair is in a tagged list exactly when it has the list's tag and its index is in the list |
| Assembly.TaggedKeysDistinct | pvc_detect_two.py:243-248 | tagging a strictly increasing list gives distinct indexes |
| Assembly.MergeSpec | pvc_detect_two.py:229-236 | the merge is ordered by sample index, is a permutation of the four tagged lists, and holds exactly the listed pairs |
| Assembly.MergeStrictlySorted | pvc_detect_two.py:229-236 | with strictly increasing, pairwise disjoint lists the merge is strictly increasing by index |
| Pipeline.PipelineDomain | pvc_detect_two.py:205-209 | once a first window exists, the boundaries split the intervals into non-empty windows, and the intervals are positive |
| Pipeline.PipelineBeatsValid | pvc_detect_two.py:205-211 | the classifier's input as the pipeline builds it has one baseline per window plus one, every baseline positive |
| Pipeline.MergedTiersStrictlySorted | pvc_detect_two.py:229-236 | the merged result reports each beat at most once, in increasing index order |
| Pipeline.MergedTiersMembership | pvc_detect_two.py:229-236 | `(x, t)` is in the merge exactly when x ends an examined interval whose beat has tier t >= 1 |
| Pipeline.ProcessData | pvc_detect_two.py:205-241 | fails exactly when there is no non-empty first window; otherwise returns the pipeline's merged candidates |
| Pipeline.LocsSpec | pvc_detect_two.py:205-236 | when a first window exists the result is strictly increasing by index, and `(x, t)` is in it exactly when x's beat has tier t in 1..4 |
| Pipeline.LocsAmplitude | pvc_detect_two.py:211-236 | reported tier-4 locations lie below the mode; reported tier-3 locations lie at or above it |

## Left out

- The low-pass filter (`butter_lowpass`, `butter_lowpass_filter`) and the beat detector `ecg.ecg` are SciPy and biosppy code. The filtered signal and the R-peaks are inputs. The R-peaks are taken to be strictly increasing samples of the filtered signal (`Pipeline.PeaksWellFormed`).
- `get_mode` uses NumPy histogram binning over floating point. The mode is a parameter of the classifier and of the pipeline.
- Floating point: means, times and percent errors are exact reals. IEEE-754 rounding, NaN and infinities are not modelled. Integers are unbounded; NumPy's 64-bit integers are not modelled.
- Plotting, `print` calls, the file reading of `get_signal_data` and `read_lvm` are I/O. The other files of the repository (argument parsing, database, input readers, the data-acquisition program, the waveform plotter) are outside the core.
- The `get_y_vals` calls in `process_data` only feed the plot, so `Pipeline.ProcessData` does not call `Assembly.GetYVals`.
- Intervals.GetDistances: requires a non-zero sampling rate when there are two or more peaks. A zero rate would make the source divide by zero.
- Intervals.CheckedSignal: requires a non-zero sampling rate, for the same reason. Its if-and-only-if is stated for positive rates.
- Baseline.RemoveOutliers: requires a non-empty window. The source raises `IndexError` there. The pipeline models that path as `Failure(EmptyFirstWindow)` before any empty window reaches it.
- Baseline.GetAverages: requires at least one boundary, a non-empty first window, strictly increasing boundaries and a boundary inside the intervals. The source raises `IndexError` when the first two do not hold. The pipeline reports this as `Failure(EmptyFirstWindow)`, and its boundaries meet the last two by `Intervals.BoundariesShape`.
- Classifier.ProcessPvc: requires no zero baseline. With NumPy floats a zero baseline would produce infinities instead of an error. The pipeline's baselines are proved positive (`Pipeline.PipelineBeatsValid`).
- Assembly.GetYVals: requires every index within the signal. Python's negative indexing from the end is not modelled.
