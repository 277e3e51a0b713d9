/** The windowed baseline: interquartile-range outlier trimming
    (`remove_outliers`) and the mean RR interval of each window
    (`get_averages`). */
module Baseline {
  import opened Sorting
  import opened Stats

  function Id(x: int): int { x }

  /** The first and third quartile of a window: the values at positions
      `int(n / 4)` and `int(3 * n / 4)` of the sorted window. */
  function Quartiles(d: seq<int>): (q: (int, int))
    requires |d| > 0
    ensures q.0 <= q.1
    ensures q.0 in d && q.1 in d
  {
    var sorted := SortBy(d, Id);
    SortBySorted(d, Id);
    SortByPermutes(d, Id);
    var first, third := |d| / 4, 3 * |d| / 4;
    assert sorted[first] in multiset(d) && sorted[third] in multiset(d);
    (sorted[first], sorted[third])
  }

  /** The Tukey fences: within 1.5 interquartile ranges of the quartiles. */
  predicate WithinFences(x: int, q1: int, q3: int) {
    var iqr := q3 - q1;
    x as real >= q1 as real - 1.5 * iqr as real && x as real <= q3 as real + 1.5 * iqr as real
  }

  /** The values of `d` within the fences, in their original order. */
  function Keep(d: seq<int>, q1: int, q3: int): seq<int> {
    if d == [] then []
    else
      var init, last := d[..|d| - 1], d[|d| - 1];
      Keep(init, q1, q3) + if WithinFences(last, q1, q3) then [last] else []
  }

  /** Trimming keeps exactly the values within the fences: every kept value
      is one of the window's values and lies within the fences, and every
      value of the window within the fences is kept. */
  lemma {:induction false} KeepSpec(d: seq<int>, q1: int, q3: int)
    ensures multiset(Keep(d, q1, q3)) <= multiset(d)
    ensures forall x :: x in Keep(d, q1, q3) ==> WithinFences(x, q1, q3)
    ensures forall k :: 0 <= k < |d| && WithinFences(d[k], q1, q3) ==> d[k] in Keep(d, q1, q3)
  {
    if d != [] {
      var init, last := d[..|d| - 1], d[|d| - 1];
      KeepSpec(init, q1, q3);
      assert d == init + [last];
      forall k | 0 <= k < |d| && WithinFences(d[k], q1, q3)
        ensures d[k] in Keep(d, q1, q3)
      {
        if k < |d| - 1 {
          assert d[k] == init[k];
        }
      }
    }
  }

  /** Trimming distributes over concatenation: the values kept from a
      window are kept in the order they came in. */
  lemma {:induction false} KeepAppend(a: seq<int>, b: seq<int>, q1: int, q3: int)
    ensures Keep(a + b, q1, q3) == Keep(a, q1, q3) + Keep(b, q1, q3)
  {
    if b != [] {
      var init := b[..|b| - 1];
      KeepAppend(a, init, q1, q3);
      assert (a + b)[..|a + b| - 1] == a + init;
    } else {
      assert a + b == a;
    }
  }

  /** The first quartile always lies within its own fences, so it is kept. */
  lemma FirstQuartileKept(d: seq<int>)
    requires |d| > 0
    ensures Quartiles(d).0 in Keep(d, Quartiles(d).0, Quartiles(d).1)
  {
    var q := Quartiles(d);
    var k :| 0 <= k < |d| && d[k] == q.0;
    assert WithinFences(d[k], q.0, q.1);
    KeepSpec(d, q.0, q.1);
  }

  /** `remove_outliers` as a function: never empty, because the first
      quartile survives. */
  function Trim(d: seq<int>): (r: seq<int>)
    requires |d| > 0
    ensures r != []
  {
    var q := Quartiles(d);
    FirstQuartileKept(d);
    Keep(d, q.0, q.1)
  }

  /** Sorts a copy of the window, takes its quartiles and appends, in the
      original order, every value within the fences. */
  method RemoveOutliers(distances: seq<int>) returns (kept: seq<int>)
    requires |distances| > 0
    ensures kept == Trim(distances)
  {
    var sorted := SortBy(distances, Id);
    var length := |sorted|;
    var first := length / 4;
    var third := 3 * length / 4;
    var firstQuartile := sorted[first];
    var thirdQuartile := sorted[third];
    var iqr := thirdQuartile - firstQuartile;
    kept := [];
    for i := 0 to |distances|
      invariant kept == Keep(distances[..i], firstQuartile, thirdQuartile)
    {
      var x := distances[i];
      assert distances[..i + 1][..i] == distances[..i];
      if x as real >= firstQuartile as real - 1.5 * iqr as real
        && x as real <= thirdQuartile as real + 1.5 * iqr as real
      {
        kept := kept + [x];
      }
    }
    assert distances[..|distances|] == distances;
    assert (firstQuartile, thirdQuartile) == Quartiles(distances);
  }

  /** What trimming keeps: a non-empty selection of the window's values,
      exactly those within the fences of the window's quartiles. */
  lemma TrimSpec(d: seq<int>)
    requires |d| > 0
    ensures Trim(d) != [] && multiset(Trim(d)) <= multiset(d)
    ensures forall x :: x in Trim(d) ==> WithinFences(x, Quartiles(d).0, Quartiles(d).1)
    ensures forall k :: 0 <= k < |d| && WithinFences(d[k], Quartiles(d).0, Quartiles(d).1) ==> d[k] in Trim(d)
  {
    KeepSpec(d, Quartiles(d).0, Quartiles(d).1);
  }

  /** Trimming twice can remove more than trimming once: the quartiles of
      the trimmed window are tighter. For any positive interval x, the
      window [0, x, x, x, 2x, 10x] loses only 10x, and trimming the result
      again loses 0 and 2x as well. */
  lemma TrimNotIdempotent(s: seq<int>, x: int)
    requires x > 0 && |s| == 6
    requires s[0] == 0 && s[1] == x && s[2] == x && s[3] == x && s[4] == 2 * x && s[5] == 10 * x
    ensures Trim(s) == s[..5]
    ensures Trim(Trim(s)) == s[1..4]
    ensures Trim(Trim(s)) != Trim(s)
  {
    TrimDropsLargest(s, x);
    var t := s[..5];
    TrimDropsEnds(t, x);
    assert t[1..4] == s[1..4];
  }

  /** Trimming [0, x, x, x, 2x, 10x]: the quartiles are x and 2x, so only
      10x is beyond the fences. */
  lemma TrimDropsLargest(s: seq<int>, x: int)
    requires x > 0 && |s| == 6
    requires s[0] == 0 && s[1] == x && s[2] == x && s[3] == x && s[4] == 2 * x && s[5] == 10 * x
    ensures Trim(s) == s[..5]
  {
    assert SortedBy(s, Id);
    QuartilesOfSorted(s);
    KeepDropsLargest(s, x);
  }

  lemma KeepDropsLargest(s: seq<int>, x: int)
    requires x > 0 && |s| == 6
    requires s[0] == 0 && s[1] == x && s[2] == x && s[3] == x && s[4] == 2 * x && s[5] == 10 * x
    ensures Keep(s, x, 2 * x) == s[..5]
  {
    var t := s[..5];
    assert s == t + [s[5]];
    KeepAppend(t, [s[5]], x, 2 * x);
    KeepAll(t, x, 2 * x);
  }

  /** Trimming [0, x, x, x, 2x]: both quartiles are x, so the fences
      shrink to x and drop 0 and 2x. */
  lemma TrimDropsEnds(t: seq<int>, x: int)
    requires x > 0 && |t| == 5
    requires t[0] == 0 && t[1] == x && t[2] == x && t[3] == x && t[4] == 2 * x
    ensures Trim(t) == t[1..4]
  {
    assert SortedBy(t, Id);
    QuartilesOfSorted(t);
    KeepDropsEnds(t, x);
  }

  lemma KeepDropsEnds(t: seq<int>, x: int)
    requires x > 0 && |t| == 5
    requires t[0] == 0 && t[1] == x && t[2] == x && t[3] == x && t[4] == 2 * x
    ensures Keep(t, x, x) == t[1..4]
  {
    var middle := t[1..4];
    assert t == [t[0]] + middle + [t[4]];
    KeepAppend([t[0]] + middle, [t[4]], x, x);
    KeepAppend([t[0]], middle, x, x);
    KeepAll(middle, x, x);
  }

  /** The quartiles of an ascending window are read off at positions
      n / 4 and 3n / 4. */
  lemma QuartilesOfSorted(d: seq<int>)
    requires |d| > 0 && SortedBy(d, Id)
    ensures Quartiles(d) == (d[|d| / 4], d[3 * |d| / 4])
  {
    SortedIsFixed(d);
  }

  /** A window whose values are all within the fences is kept whole. */
  lemma {:induction false} KeepAll(d: seq<int>, q1: int, q3: int)
    requires forall k :: 0 <= k < |d| ==> WithinFences(d[k], q1, q3)
    ensures Keep(d, q1, q3) == d
  {
    if d != [] {
      KeepAll(d[..|d| - 1], q1, q3);
    }
  }

  /** An already ascending window is its own sorted copy. */
  lemma {:induction false} SortedIsFixed(s: seq<int>)
    requires SortedBy(s, Id)
    ensures SortBy(s, Id) == s
  {
    if s != [] {
      SortedIsFixed(s[1..]);
    }
  }

  /** The indexes split the RR intervals into windows: at least one
      boundary, a non-empty first window, strictly increasing boundaries
      and a non-empty trailing window. */
  predicate AveragesDomain(d: seq<int>, idx: seq<int>) {
    |idx| > 0 && idx[0] > 0 && StrictlyIncreasing(idx) && idx[|idx| - 1] < |d|
  }

  /** Window k: `d[0:idx[0]]`, `d[idx[k-1]:idx[k]]`, or the trailing
      `d[idx[-1]:]` for k = |idx|. */
  function Window(d: seq<int>, idx: seq<int>, k: nat): (w: seq<int>)
    requires AveragesDomain(d, idx) && k <= |idx|
    ensures |w| > 0
  {
    var last := |idx| - 1;
    assert k < |idx| ==> idx[k] <= idx[last];
    if k == |idx| then d[idx[last]..]
    else if k == 0 then d[..idx[0]]
    else d[idx[k - 1]..idx[k]]
  }

  /** The baseline of window k: the mean of the trimmed window, except for
      the trailing window, which is averaged untrimmed. */
  function WindowAverage(d: seq<int>, idx: seq<int>, k: nat): real
    requires AveragesDomain(d, idx) && k <= |idx|
  {
    if k == |idx| then Mean(Window(d, idx, k)) else Mean(Trim(Window(d, idx, k)))
  }

  /** Positive RR intervals give positive baselines, so every baseline can
      divide. */
  lemma WindowAveragePositive(d: seq<int>, idx: seq<int>, k: nat)
    requires AveragesDomain(d, idx) && k <= |idx|
    requires forall j :: 0 <= j < |d| ==> d[j] > 0
    ensures WindowAverage(d, idx, k) > 0.0
  {
    var w := Window(d, idx, k);
    assert forall x :: x in w ==> x > 0;
    if k == |idx| {
      MeanPositive(w);
    } else {
      var t := Trim(w);
      TrimSpec(w);
      forall j | 0 <= j < |t|
        ensures t[j] > 0
      {
        assert t[j] in multiset(w);
      }
      MeanPositive(t);
    }
  }

  /** One baseline per window, the trailing one last. */
  function Averages(d: seq<int>, idx: seq<int>): seq<real>
    requires AveragesDomain(d, idx)
  {
    seq(|idx| + 1, k requires 0 <= k < |idx| + 1 => WindowAverage(d, idx, k))
  }

  /** The first baseline is the mean of the trimmed first window. */
  lemma FirstAverage(d: seq<int>, idx: seq<int>)
    requires AveragesDomain(d, idx)
    ensures Averages(d, idx)[0] == Mean(Trim(d[..idx[0]]))
  {
  }

  /** Baseline i, between two boundaries, is the mean of the trimmed
      middle window. */
  lemma MiddleAverage(d: seq<int>, idx: seq<int>, i: nat)
    requires AveragesDomain(d, idx) && 0 < i < |idx|
    ensures idx[i - 1] <= idx[i] <= |d|
    ensures Averages(d, idx)[i] == Mean(Trim(d[idx[i - 1]..idx[i]]))
  {
    assert idx[i] <= idx[|idx| - 1];
  }

  /** The last baseline is the mean of the untrimmed trailing window. */
  lemma TrailingAverage(d: seq<int>, idx: seq<int>)
    requires AveragesDomain(d, idx)
    ensures Averages(d, idx)[|idx|] == Mean(d[idx[|idx| - 1]..])
  {
  }

  /** Extending a prefix by the next element. */
  lemma PrefixSnoc<T>(s: seq<T>, i: nat)
    requires i < |s|
    ensures s[..i + 1] == s[..i] + [s[i]]
  {
  }

  /** Averages the trimmed first window, each trimmed middle window and the
      untrimmed trailing window, appending one baseline per window. */
  method GetAverages(distances: seq<int>, indexes: seq<int>) returns (averages: seq<real>)
    requires AveragesDomain(distances, indexes)
    ensures averages == Averages(distances, indexes)
  {
    ghost var all := Averages(distances, indexes);
    var trimmed := RemoveOutliers(distances[0..indexes[0]]);
    averages := [Mean(trimmed)];
    FirstAverage(distances, indexes);
    PrefixSnoc(all, 0);
    for i := 1 to |indexes|
      invariant averages == all[..i]
    {
      MiddleAverage(distances, indexes, i);
      var removedOutliers := RemoveOutliers(distances[indexes[i - 1]..indexes[i]]);
      var average := Mean(removedOutliers);
      averages := averages + [average];
      PrefixSnoc(all, i);
    }
    TrailingAverage(distances, indexes);
    averages := averages + [Mean(distances[indexes[|indexes| - 1]..])];
    PrefixSnoc(all, |indexes|);
    assert all[..|indexes| + 1] == all;
  }
}
