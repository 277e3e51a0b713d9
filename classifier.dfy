/** The four-stage PVC rule cascade (`process_pvc`): for each examined RR
    interval, a prematurity test, a compensatory-pause test, a symmetry test
    on the mean of the two intervals, and an amplitude test against the
    signal's mode, with a window cursor that picks the baseline. */
module Classifier {
  import opened Sorting

  /** The three fractional thresholds of the cascade. */
  datatype Thresholds = Thresholds(prematurity: real, compensatory: real, dist: real)

  /** The thresholds the pipeline passes: 15 % early, 5 % late, 20 % off. */
  const Default := Thresholds(0.15, 0.05, 0.2)

  function Abs(x: real): real {
    if x < 0.0 then -x else x
  }

  /** Fractional deviation of a length from the baseline. */
  function PercentError(x: real, avg: real): real
    requires avg != 0.0
  {
    (x - avg) / avg
  }

  /** Stage 1: the interval ending at the beat is short by at least the
      prematurity fraction. */
  predicate Premature(d0: int, avg: real, th: Thresholds)
    requires avg != 0.0
  {
    PercentError(d0 as real, avg) <= -th.prematurity
  }

  /** Stage 2: the following interval is long by at least the compensatory
      fraction. */
  predicate Compensatory(d1: int, avg: real, th: Thresholds)
    requires avg != 0.0
  {
    PercentError(d1 as real, avg) >= th.compensatory
  }

  /** Stage 3: the mean of the two intervals is within the distance
      tolerance of the baseline. */
  predicate Symmetric(d0: int, d1: int, avg: real, th: Thresholds)
    requires avg != 0.0
  {
    Abs(PercentError((d1 + d0) as real / 2.0, avg)) <= th.dist
  }

  /** The tier of a beat: 0 when it is not premature, otherwise 1 + the
      number of further stages it passes in order; stage 4 is an amplitude
      below the mode. A beat reaches a tier exactly when it satisfies every
      criterion of the tiers below it. */
  function TierOf(d0: int, d1: int, avg: real, amplitude: real, mode: real, th: Thresholds): (t: nat)
    requires avg != 0.0
    ensures t <= 4
    ensures t >= 1 <==> Premature(d0, avg, th)
    ensures t >= 2 <==> Premature(d0, avg, th) && Compensatory(d1, avg, th)
    ensures t >= 3 <==> Premature(d0, avg, th) && Compensatory(d1, avg, th) && Symmetric(d0, d1, avg, th)
    ensures t == 4 <==>
      Premature(d0, avg, th) && Compensatory(d1, avg, th) && Symmetric(d0, d1, avg, th) && amplitude < mode
  {
    var percentErrorOne := PercentError(d0 as real, avg);
    if percentErrorOne <= -th.prematurity then
      var percentErrorTwo := PercentError(d1 as real, avg);
      if percentErrorTwo >= th.compensatory then
        var testDist := (d1 + d0) as real / 2.0;
        if Abs(PercentError(testDist, avg)) <= th.dist then
          if amplitude < mode then 4 else 3
        else 2
      else 1
    else 0
  }

  /** Intervals 60 then 140 against a baseline of 100: the beat is 40 %
      early, the pause 40 % late and their mean exactly on the baseline, so
      it passes the first three stages and the amplitude test decides its
      tier. */
  lemma SymmetricPairReachesAmplitudeTest(amplitude: real, mode: real)
    ensures TierOf(60, 140, 100.0, amplitude, mode, Default) == if amplitude < mode then 4 else 3
  {
  }

  /** What the classifier reads: the filtered signal, the RR intervals,
      one baseline per window, the window boundaries and the R-peaks. */
  datatype Beats = Beats(signal: seq<real>, distances: seq<int>, averages: seq<real>,
                         indexes: seq<int>, rPeaks: seq<int>)

  /** What the classifier needs to run without an indexing or division
      failure: one baseline per window plus the trailing one, no zero
      baseline, a peak for the end of every examined interval, and peaks
      inside the signal. */
  predicate Valid(b: Beats) {
    |b.averages| == |b.indexes| + 1 &&
    (forall k :: 0 <= k < |b.averages| ==> b.averages[k] != 0.0) &&
    |b.distances| <= |b.rPeaks| + 1 &&
    (forall k :: 0 <= k < |b.rPeaks| ==> 0 <= b.rPeaks[k] < |b.signal|)
  }

  /** The intervals examined, `range(0, len(distances) - 2)`: each needs the
      interval after it. */
  function Examined(b: Beats): nat {
    if |b.distances| >= 2 then |b.distances| - 2 else 0
  }

  /** The window cursor at beat i: it starts at 0 and, from i = 1 on, moves
      to the next window when i has passed the current boundary. */
  function Cursor(indexes: seq<int>, i: nat): (c: nat)
    ensures c <= |indexes| && c <= i
  {
    var previous := if i == 0 then 0 else Cursor(indexes, i - 1);
    if i > 0 && previous < |indexes| && i > indexes[previous] then previous + 1 else previous
  }

  /** The cursor never moves back and moves on by at most one window per
      beat. */
  lemma {:induction false} CursorMonotone(indexes: seq<int>, i: nat, j: nat)
    requires i <= j
    ensures Cursor(indexes, i) <= Cursor(indexes, j) <= Cursor(indexes, i) + (j - i)
    decreases j - i
  {
    if i < j {
      CursorMonotone(indexes, i, j - 1);
    }
  }

  /** With strictly increasing, non-negative boundaries, the cursor c at
      beat i is the window with `indexes[c-1] < i <= indexes[c]`: a beat AT
      a boundary is still measured against the window before it. */
  lemma {:induction false} CursorWindow(indexes: seq<int>, i: nat)
    requires StrictlyIncreasing(indexes)
    requires forall k :: 0 <= k < |indexes| ==> indexes[k] >= 0
    ensures var c := Cursor(indexes, i);
      (c == 0 || indexes[c - 1] < i) && (c == |indexes| || i <= indexes[c])
  {
    if i > 0 {
      CursorWindow(indexes, i - 1);
    }
  }

  /** The peak that ends examined interval i: the beat being classified. */
  function Beat(b: Beats, i: nat): int
    requires Valid(b) && i < Examined(b)
  {
    b.rPeaks[i + 1]
  }

  /** The baseline examined beat i is measured against: the one under the
      cursor. */
  function BeatAverage(b: Beats, i: nat): real
    requires Valid(b) && i < Examined(b)
  {
    b.averages[Cursor(b.indexes, i)]
  }

  /** The tier of examined beat i. */
  function BeatTier(b: Beats, th: Thresholds, mode: real, i: nat): nat
    requires Valid(b) && i < Examined(b)
  {
    TierOf(b.distances[i], b.distances[i + 1], BeatAverage(b, i), b.signal[b.rPeaks[i + 1]], mode, th)
  }

  /** Examined beat i meets exactly the criteria of `tier`: tier 1 is
      premature without a compensatory pause, tier 2 adds the pause but
      fails the symmetry test, tier 3 passes it with an amplitude at or
      above the mode, tier 4 with an amplitude below it. */
  predicate MeetsExactly(b: Beats, th: Thresholds, mode: real, i: nat, tier: nat)
    requires Valid(b) && i < Examined(b)
  {
    var avg, d0, d1 := BeatAverage(b, i), b.distances[i], b.distances[i + 1];
    var p, c, s := Premature(d0, avg, th), Compensatory(d1, avg, th), Symmetric(d0, d1, avg, th);
    var low := b.signal[Beat(b, i)] < mode;
    (tier == 1 && p && !c) || (tier == 2 && p && c && !s) ||
    (tier == 3 && p && c && s && !low) || (tier == 4 && p && c && s && low)
  }

  /** The four candidate lists: beats meeting one, two, three and all four
      criteria. */
  datatype TierLists = TierLists(p25: seq<int>, p50: seq<int>, p75: seq<int>, p100: seq<int>)

  /** The list of tier 1 to 4; a beat of tier 0 is in no list. */
  function Select(c: TierLists, tier: nat): seq<int> {
    if tier == 1 then c.p25 else if tier == 2 then c.p50 else if tier == 3 then c.p75
    else if tier == 4 then c.p100 else []
  }

  /** Appends x to the list of its tier. */
  function AppendTo(c: TierLists, tier: nat, x: int): TierLists {
    if tier == 1 then c.(p25 := c.p25 + [x]) else if tier == 2 then c.(p50 := c.p50 + [x])
    else if tier == 3 then c.(p75 := c.p75 + [x]) else if tier == 4 then c.(p100 := c.p100 + [x])
    else c
  }

  /** The four lists after classifying the first n examined beats. */
  function Classified(b: Beats, th: Thresholds, mode: real, n: nat): TierLists
    requires Valid(b) && n <= Examined(b)
  {
    if n == 0 then TierLists([], [], [], [])
    else AppendTo(Classified(b, th, mode, n - 1), BeatTier(b, th, mode, n - 1), Beat(b, n - 1))
  }

  /** The beats among the first n examined whose tier is `tier`, in order. */
  function TierList(b: Beats, th: Thresholds, mode: real, tier: nat, n: nat): seq<int>
    requires Valid(b) && n <= Examined(b)
  {
    Select(Classified(b, th, mode, n), tier)
  }

  /** Examining one more beat appends it to the list of its own tier. */
  lemma TierListStep(b: Beats, th: Thresholds, mode: real, tier: nat, i: nat)
    requires Valid(b) && i < Examined(b) && 1 <= tier <= 4
    ensures TierList(b, th, mode, tier, i + 1) ==
      TierList(b, th, mode, tier, i) + if BeatTier(b, th, mode, i) == tier then [Beat(b, i)] else []
  {
  }

  /** Runs the cascade over every examined interval. A premature beat is
      appended to the tier-1 list; each further stage it passes pops it from
      the list it was just appended to and appends it to the next one. */
  method ProcessPvc(signal: seq<real>, distances: seq<int>, averages: seq<real>, indexes: seq<int>,
                    rPeaks: seq<int>, prematurity: real, compensatory: real, dist: real, mode: real)
    returns (pvc25: seq<int>, pvc50: seq<int>, pvc75: seq<int>, pvc100: seq<int>, pvcCount: nat)
    requires Valid(Beats(signal, distances, averages, indexes, rPeaks))
    ensures pvc25 == TierList(Beats(signal, distances, averages, indexes, rPeaks),
                              Thresholds(prematurity, compensatory, dist), mode, 1,
                              Examined(Beats(signal, distances, averages, indexes, rPeaks)))
    ensures pvc50 == TierList(Beats(signal, distances, averages, indexes, rPeaks),
                              Thresholds(prematurity, compensatory, dist), mode, 2,
                              Examined(Beats(signal, distances, averages, indexes, rPeaks)))
    ensures pvc75 == TierList(Beats(signal, distances, averages, indexes, rPeaks),
                              Thresholds(prematurity, compensatory, dist), mode, 3,
                              Examined(Beats(signal, distances, averages, indexes, rPeaks)))
    ensures pvc100 == TierList(Beats(signal, distances, averages, indexes, rPeaks),
                               Thresholds(prematurity, compensatory, dist), mode, 4,
                               Examined(Beats(signal, distances, averages, indexes, rPeaks)))
    ensures pvcCount == |pvc100|
  {
    var b := Beats(signal, distances, averages, indexes, rPeaks);
    var th := Thresholds(prematurity, compensatory, dist);
    var count := 0;
    pvcCount := 0;
    pvc25, pvc50, pvc75, pvc100 := [], [], [], [];
    var n := if |distances| >= 2 then |distances| - 2 else 0;
    for i := 0 to n
      invariant count == if i == 0 then 0 else Cursor(indexes, i - 1)
      invariant count <= |indexes|
      invariant TierLists(pvc25, pvc50, pvc75, pvc100) == Classified(b, th, mode, i)
      invariant pvcCount == |pvc100|
    {
      ghost var before := count;
      if i > 0 && count < |indexes| && i > indexes[count] {
        count := count + 1;
      }
      assert count == Cursor(indexes, i) && before <= count <= before + 1;
      ghost var lists := TierLists(pvc25, pvc50, pvc75, pvc100);
      var avg := averages[count];
      ghost var tier := TierOf(distances[i], distances[i + 1], avg, signal[rPeaks[i + 1]], mode, th);
      assert tier == BeatTier(b, th, mode, i);
      var percentErrorOne := PercentError(distances[i] as real, avg);
      if percentErrorOne <= -prematurity {
        pvc25 := pvc25 + [rPeaks[i + 1]];
        var percentErrorTwo := PercentError(distances[i + 1] as real, avg);
        if percentErrorTwo >= compensatory {
          pvc25 := pvc25[..|pvc25| - 1];
          pvc50 := pvc50 + [rPeaks[i + 1]];
          var testDist := (distances[i + 1] + distances[i]) as real / 2.0;
          var testDistPercentError := PercentError(testDist, avg);
          if Abs(testDistPercentError) <= dist {
            pvc50 := pvc50[..|pvc50| - 1];
            pvc75 := pvc75 + [rPeaks[i + 1]];
            if signal[rPeaks[i + 1]] < mode {
              pvc75 := pvc75[..|pvc75| - 1];
              pvc100 := pvc100 + [rPeaks[i + 1]];
              pvcCount := pvcCount + 1;
              assert tier == 4;
            } else {
              assert tier == 3;
            }
          } else {
            assert tier == 2;
          }
        } else {
          assert tier == 1;
        }
      } else {
        assert tier == 0;
      }
      assert TierLists(pvc25, pvc50, pvc75, pvc100) == AppendTo(lists, tier, Beat(b, i));
    }
  }

  /** A peak is in a tier list exactly when it ends an examined interval
      whose beat has that tier. */
  lemma {:induction false} TierListMembership(b: Beats, th: Thresholds, mode: real, tier: nat, n: nat, x: int)
    requires Valid(b) && n <= Examined(b) && 1 <= tier <= 4
    ensures x in TierList(b, th, mode, tier, n) <==>
      exists i :: 0 <= i < n && Beat(b, i) == x && BeatTier(b, th, mode, i) == tier
  {
    if n > 0 {
      TierListMembership(b, th, mode, tier, n - 1, x);
      TierListStep(b, th, mode, tier, n - 1);
    }
  }

  /** With strictly increasing R-peaks every tier list is strictly
      increasing: beats are listed in the order they were examined. */
  lemma {:induction false} TierListIncreasing(b: Beats, th: Thresholds, mode: real, tier: nat, n: nat)
    requires Valid(b) && n <= Examined(b) && StrictlyIncreasing(b.rPeaks) && 1 <= tier <= 4
    ensures StrictlyIncreasing(TierList(b, th, mode, tier, n))
  {
    if n > 0 {
      var init := TierList(b, th, mode, tier, n - 1);
      TierListIncreasing(b, th, mode, tier, n - 1);
      TierListStep(b, th, mode, tier, n - 1);
      forall x | x in init
        ensures x < Beat(b, n - 1)
      {
        TierListMembership(b, th, mode, tier, n - 1, x);
      }
      if BeatTier(b, th, mode, n - 1) == tier {
        var r := init + [Beat(b, n - 1)];
        forall p, q | 0 <= p < q < |r|
          ensures r[p] < r[q]
        {
          if q == |init| {
            assert r[p] == init[p] && init[p] in init;
          } else {
            assert r[p] == init[p] && r[q] == init[q];
          }
        }
      }
    }
  }

  /** Each examined beat ends up in the list of its own tier and in no
      other: a premature beat in exactly one of the four lists, any other
      beat in none. */
  lemma BeatInOwnTierOnly(b: Beats, th: Thresholds, mode: real, i: nat, tier: nat)
    requires Valid(b) && i < Examined(b) && StrictlyIncreasing(b.rPeaks) && 1 <= tier <= 4
    ensures Beat(b, i) in TierList(b, th, mode, tier, Examined(b)) <==> BeatTier(b, th, mode, i) == tier
  {
    TierListMembership(b, th, mode, tier, Examined(b), Beat(b, i));
    if Beat(b, i) in TierList(b, th, mode, tier, Examined(b)) {
      var j :| 0 <= j < Examined(b) && Beat(b, j) == Beat(b, i) && BeatTier(b, th, mode, j) == tier;
      assert b.rPeaks[j + 1] == b.rPeaks[i + 1];
      assert j == i;
    }
  }

  /** A peak is in the list of a tier exactly when it ends an examined
      interval whose beat meets exactly that tier's criteria: members of
      the lists of tiers 2 to 4 passed the compensatory test, members of
      tiers 3 and 4 the symmetry test, and the amplitude separates 3 from 4. */
  lemma TierListStages(b: Beats, th: Thresholds, mode: real, tier: nat, x: int)
    requires Valid(b) && 1 <= tier <= 4
    ensures x in TierList(b, th, mode, tier, Examined(b)) <==>
      exists i :: 0 <= i < Examined(b) && Beat(b, i) == x && MeetsExactly(b, th, mode, i, tier)
  {
    TierListMembership(b, th, mode, tier, Examined(b), x);
    forall i | 0 <= i < Examined(b)
      ensures BeatTier(b, th, mode, i) == tier <==> MeetsExactly(b, th, mode, i, tier)
    {
    }
  }

  /** An examined beat is in one of the four lists exactly when it is
      premature against its baseline. */
  lemma ListedIffPremature(b: Beats, th: Thresholds, mode: real, i: nat)
    requires Valid(b) && i < Examined(b) && StrictlyIncreasing(b.rPeaks)
    ensures (exists t :: 1 <= t <= 4 && Beat(b, i) in TierList(b, th, mode, t, Examined(b))) <==>
      Premature(b.distances[i], BeatAverage(b, i), th)
  {
    forall t | 1 <= t <= 4
      ensures Beat(b, i) in TierList(b, th, mode, t, Examined(b)) <==> BeatTier(b, th, mode, i) == t
    {
      BeatInOwnTierOnly(b, th, mode, i, t);
    }
    var tier := BeatTier(b, th, mode, i);
    if tier >= 1 {
      assert Beat(b, i) in TierList(b, th, mode, tier, Examined(b));
    }
  }

  /** No peak is in two tier lists. */
  lemma TierListsDisjoint(b: Beats, th: Thresholds, mode: real, t1: nat, t2: nat, x: int)
    requires Valid(b) && StrictlyIncreasing(b.rPeaks) && t1 != t2 && 1 <= t1 <= 4 && 1 <= t2 <= 4
    ensures !(x in TierList(b, th, mode, t1, Examined(b)) && x in TierList(b, th, mode, t2, Examined(b)))
  {
    TierListMembership(b, th, mode, t1, Examined(b), x);
    if x in TierList(b, th, mode, t1, Examined(b)) {
      var i :| 0 <= i < Examined(b) && Beat(b, i) == x && BeatTier(b, th, mode, i) == t1;
      BeatInOwnTierOnly(b, th, mode, i, t2);
    }
  }

  /** The full-criteria list holds only beats whose amplitude is below the
      mode; the three-criteria list only beats at or above it. */
  lemma AmplitudeSplitsTopTiers(b: Beats, th: Thresholds, mode: real, x: int)
    requires Valid(b)
    ensures x in TierList(b, th, mode, 4, Examined(b)) ==> 0 <= x < |b.signal| && b.signal[x] < mode
    ensures x in TierList(b, th, mode, 3, Examined(b)) ==> 0 <= x < |b.signal| && b.signal[x] >= mode
  {
    TierListMembership(b, th, mode, 4, Examined(b), x);
    TierListMembership(b, th, mode, 3, Examined(b), x);
  }
}
