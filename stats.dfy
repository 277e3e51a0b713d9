/** The arithmetic mean used for the RR-interval baselines (`np.mean`),
    over exact reals: IEEE-754 rounding is not modelled. */
module Stats {

  function Sum(s: seq<int>): int {
    if s == [] then 0 else s[0] + Sum(s[1..])
  }

  function Mean(s: seq<int>): real
    requires |s| > 0
  {
    Sum(s) as real / |s| as real
  }

  lemma SumCons(a: int, s: seq<int>)
    ensures Sum([a] + s) == a + Sum(s)
  {
    assert ([a] + s)[1..] == s;
  }

  /** A sum of n values each within [lo, hi] lies within [n*lo, n*hi]. */
  lemma {:induction false} SumBetween(s: seq<int>, lo: int, hi: int)
    requires forall k :: 0 <= k < |s| ==> lo <= s[k] <= hi
    ensures |s| * lo <= Sum(s) <= |s| * hi
  {
    if s != [] {
      SumBetween(s[1..], lo, hi);
      assert (|s| - 1) * lo + lo == |s| * lo;
      assert (|s| - 1) * hi + hi == |s| * hi;
    }
  }

  /** The mean of values within [lo, hi] lies within [lo, hi]. */
  lemma MeanBetween(s: seq<int>, lo: int, hi: int)
    requires |s| > 0
    requires forall k :: 0 <= k < |s| ==> lo <= s[k] <= hi
    ensures lo as real <= Mean(s) <= hi as real
  {
    SumBetween(s, lo, hi);
    var n := |s| as real;
    assert n * lo as real <= Sum(s) as real <= n * hi as real;
    assert Mean(s) * n == Sum(s) as real;
  }

  /** A sum of n values each at least lo is at least n*lo. */
  lemma {:induction false} SumAtLeast(s: seq<int>, lo: int)
    requires forall k :: 0 <= k < |s| ==> lo <= s[k]
    ensures |s| * lo <= Sum(s)
  {
    if s != [] {
      SumAtLeast(s[1..], lo);
      assert (|s| - 1) * lo + lo == |s| * lo;
    }
  }

  /** The mean of positive values is positive. */
  lemma MeanPositive(s: seq<int>)
    requires |s| > 0
    requires forall k :: 0 <= k < |s| ==> s[k] > 0
    ensures Mean(s) > 0.0
  {
    SumAtLeast(s, 1);
    assert Sum(s) > 0;
  }
}
