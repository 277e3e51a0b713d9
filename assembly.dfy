/** Assembling the output of the pipeline: tagging each tier list with the
    number of criteria its beats met (`generate_array`), reading the signal
    at the candidate locations (`get_y_vals`), and merging the four tagged
    lists into one list ordered by sample index. */
module Assembly {
  import opened Sorting

  /** A candidate location: its sample index and the number of criteria met. */
  type Loc = (int, int)

  function IndexKey(p: Loc): int {
    p.0
  }

  /** Every index of `idx`, in order, paired with the tag `v`. */
  function Tagged(idx: seq<int>, v: int): seq<Loc> {
    seq(|idx|, k requires 0 <= k < |idx| => (idx[k], v))
  }

  /** Pairs every index with the tag, keeping the order of the indexes. */
  method GenerateArray(indexes: seq<int>, val: int) returns (arr: seq<Loc>)
    ensures |arr| == |indexes|
    ensures forall k :: 0 <= k < |indexes| ==> arr[k].0 == indexes[k] && arr[k].1 == val
    ensures arr == Tagged(indexes, val)
  {
    arr := [];
    for k := 0 to |indexes|
      invariant |arr| == k
      invariant forall j :: 0 <= j < k ==> arr[j] == (indexes[j], val)
    {
      arr := arr + [(indexes[k], val)];
    }
  }

  /** The amplitude of the signal at each candidate location, in order. */
  method GetYVals(signal: seq<real>, pvcIndexes: seq<int>) returns (ys: seq<real>)
    requires forall k :: 0 <= k < |pvcIndexes| ==> 0 <= pvcIndexes[k] < |signal|
    ensures |ys| == |pvcIndexes|
    ensures forall k :: 0 <= k < |pvcIndexes| ==> ys[k] == signal[pvcIndexes[k]]
  {
    ys := [];
    for i := 0 to |pvcIndexes|
      invariant |ys| == i
      invariant forall k :: 0 <= k < i ==> ys[k] == signal[pvcIndexes[k]]
    {
      ys := ys + [signal[pvcIndexes[i]]];
    }
  }

  /** A pair is in a tagged list exactly when it carries the list's tag and
      its index is in the list. */
  lemma TaggedMembership(idx: seq<int>, v: int, x: int, t: int)
    ensures (x, t) in Tagged(idx, v) <==> t == v && x in idx
  {
    if x in idx {
      var k :| 0 <= k < |idx| && idx[k] == x;
      if t == v {
        assert Tagged(idx, v)[k] == (x, t);
      }
    }
  }

  /** Tagging a strictly increasing list leaves no two pairs with one index. */
  lemma TaggedKeysDistinct(idx: seq<int>, v: int)
    requires StrictlyIncreasing(idx)
    ensures KeysDistinct(Tagged(idx, v), IndexKey)
  {
    var r := Tagged(idx, v);
    forall i, j | 0 <= i < j < |r|
      ensures IndexKey(r[i]) != IndexKey(r[j])
    {
      assert r[i].0 == idx[i] && r[j].0 == idx[j];
    }
  }

  /** The four tagged lists, concatenated in tier order. */
  function Concatenated(p25: seq<int>, p50: seq<int>, p75: seq<int>, p100: seq<int>): seq<Loc> {
    Tagged(p25, 1) + Tagged(p50, 2) + Tagged(p75, 3) + Tagged(p100, 4)
  }

  /** The four tagged lists merged and sorted by sample index. */
  function Merge(p25: seq<int>, p50: seq<int>, p75: seq<int>, p100: seq<int>): seq<Loc> {
    SortBy(Concatenated(p25, p50, p75, p100), IndexKey)
  }

  /** `(x, t)` is a candidate location exactly when x is in the list of
      tier t. */
  predicate Listed(p25: seq<int>, p50: seq<int>, p75: seq<int>, p100: seq<int>, x: int, t: int) {
    (t == 1 && x in p25) || (t == 2 && x in p50) || (t == 3 && x in p75) || (t == 4 && x in p100)
  }

  /** The merge is ordered by sample index, is a permutation of the four
      tagged lists, and holds exactly the listed pairs. */
  lemma MergeSpec(p25: seq<int>, p50: seq<int>, p75: seq<int>, p100: seq<int>, x: int, t: int)
    ensures SortedBy(Merge(p25, p50, p75, p100), IndexKey)
    ensures multiset(Merge(p25, p50, p75, p100)) == multiset(Concatenated(p25, p50, p75, p100))
    ensures (x, t) in Merge(p25, p50, p75, p100) <==> Listed(p25, p50, p75, p100, x, t)
  {
    SortBySorted(Concatenated(p25, p50, p75, p100), IndexKey);
    SortByPermutes(Concatenated(p25, p50, p75, p100), IndexKey);
    var m := Merge(p25, p50, p75, p100);
    var c := Concatenated(p25, p50, p75, p100);
    assert (x, t) in m <==> (x, t) in multiset(m);
    assert (x, t) in c <==> (x, t) in multiset(c);
    TaggedMembership(p25, 1, x, t);
    TaggedMembership(p50, 2, x, t);
    TaggedMembership(p75, 3, x, t);
    TaggedMembership(p100, 4, x, t);
  }

  predicate Disjoint(a: seq<int>, b: seq<int>) {
    forall x :: x in a ==> x !in b
  }

  /** When each list is strictly increasing and no index is in two lists,
      the merge is strictly increasing by sample index: every candidate
      location appears once. */
  lemma MergeStrictlySorted(p25: seq<int>, p50: seq<int>, p75: seq<int>, p100: seq<int>)
    requires StrictlyIncreasing(p25) && StrictlyIncreasing(p50)
    requires StrictlyIncreasing(p75) && StrictlyIncreasing(p100)
    requires Disjoint(p25, p50) && Disjoint(p25, p75) && Disjoint(p25, p100)
    requires Disjoint(p50, p75) && Disjoint(p50, p100) && Disjoint(p75, p100)
    ensures StrictlySortedBy(Merge(p25, p50, p75, p100), IndexKey)
  {
    var a, b, c, d := Tagged(p25, 1), Tagged(p50, 2), Tagged(p75, 3), Tagged(p100, 4);
    TaggedKeysDistinct(p25, 1);
    TaggedKeysDistinct(p50, 2);
    TaggedKeysDistinct(p75, 3);
    TaggedKeysDistinct(p100, 4);
    forall y, z | y in a && z in b
      ensures IndexKey(y) != IndexKey(z)
    {
      TaggedMembership(p25, 1, y.0, y.1);
      TaggedMembership(p50, 2, z.0, z.1);
    }
    KeysDistinctAppend(a, b, IndexKey);
    forall y, z | y in a + b && z in c
      ensures IndexKey(y) != IndexKey(z)
    {
      TaggedMembership(p25, 1, y.0, y.1);
      TaggedMembership(p50, 2, y.0, y.1);
      TaggedMembership(p75, 3, z.0, z.1);
    }
    KeysDistinctAppend(a + b, c, IndexKey);
    forall y, z | y in a + b + c && z in d
      ensures IndexKey(y) != IndexKey(z)
    {
      TaggedMembership(p25, 1, y.0, y.1);
      TaggedMembership(p50, 2, y.0, y.1);
      TaggedMembership(p75, 3, y.0, y.1);
      TaggedMembership(p100, 4, z.0, z.1);
    }
    KeysDistinctAppend(a + b + c, d, IndexKey);
    SortByStrictlySorted(Concatenated(p25, p50, p75, p100), IndexKey);
  }
}
