/**
 * Per-bin aggregation (polar_stats.py, lines 30-43): each bin's radii are
 * reduced to one estimate, the median or the mean; an empty bin has none.
 */
module Aggregation {
  import opened Wrappers
  import opened RealSeqs

  /** `robust == "median"` selects Median; every other value selects Mean. */
  datatype Mode = Median | Mean

  /** `2*math.pi` as the source computes it. */
  const TwoPi: real := 6.283185307179586

  predicate Ascending(s: seq<real>)
  {
    forall i, j :: 0 <= i < j < |s| ==> s[i] <= s[j]
  }

  /** Inserts `x` into an ascending sequence, keeping it ascending. */
  function Insert(x: real, s: seq<real>): (r: seq<real>)
    requires Ascending(s)
    ensures Ascending(r)
    ensures multiset(r) == multiset(s) + multiset{x}
  {
    if |s| == 0 then [x]
    else if x <= s[0] then [x] + s
    else
      assert s == [s[0]] + s[1..];
      var rest := Insert(x, s[1..]);
      assert forall k :: 0 <= k < |rest| ==> s[0] <= rest[k] by {
        forall k | 0 <= k < |rest|
          ensures s[0] <= rest[k]
        {
          assert rest[k] in multiset(rest);
        }
      }
      [s[0]] + rest
  }

  /** The ascending rearrangement of `s` (the source's `sorted`). */
  function SortAscending(s: seq<real>): (r: seq<real>)
    ensures Ascending(r)
    ensures multiset(r) == multiset(s)
  {
    if |s| == 0 then []
    else
      assert s == [s[0]] + s[1..];
      Insert(s[0], SortAscending(s[1..]))
  }

  /** There is only one ascending arrangement of a multiset of reals. */
  lemma {:induction false} AscendingUnique(a: seq<real>, b: seq<real>)
    requires Ascending(a) && Ascending(b) && multiset(a) == multiset(b)
    ensures a == b
    decreases |a|
  {
    assert |a| == |multiset(a)| == |multiset(b)| == |b|;
    if |a| > 0 {
      assert a == [a[0]] + a[1..];
      assert b == [b[0]] + b[1..];
      assert a[0] in multiset(b);
      assert b[0] in multiset(a);
      assert a[0] == b[0] by {
        var i :| 0 <= i < |b| && b[i] == a[0];
        var j :| 0 <= j < |a| && a[j] == b[0];
        assert a[0] <= a[j];
        assert b[0] <= b[i];
      }
      assert multiset(a[1..]) == multiset(a) - multiset{a[0]};
      assert multiset(b[1..]) == multiset(b) - multiset{b[0]};
      AscendingUnique(a[1..], b[1..]);
    }
  }

  /** An element of a rearrangement of `s` is an element of `s`. */
  lemma ElementOfRearrangement(t: seq<real>, s: seq<real>, k: nat)
    requires multiset(t) == multiset(s) && k < |t|
    ensures t[k] in s
  {
    assert t[k] in multiset(t);
  }

  /**
   * The median of a non-empty list: the middle element of its ascending
   * arrangement when the count is odd, the mean of the two central
   * elements when it is even.
   */
  function MedianOf(s: seq<real>): (m: real)
    requires |s| > 0
    ensures Min(s) <= m <= Max(s)
    ensures |s| % 2 == 1 ==> m in s
  {
    var t := SortAscending(s);
    var n := |t|;
    assert n == |s| by {
      assert |multiset(t)| == |multiset(s)|;
    }
    ElementOfRearrangement(t, s, n / 2);
    if n % 2 == 1 then t[n / 2]
    else
      ElementOfRearrangement(t, s, n / 2 - 1);
      0.5 * (t[n / 2 - 1] + t[n / 2])
  }

  /** The median depends only on the multiset of radii, not on their order. */
  lemma MedianOrderFree(a: seq<real>, b: seq<real>)
    requires |a| > 0 && multiset(a) == multiset(b)
    ensures |b| > 0 && MedianOf(a) == MedianOf(b)
  {
    assert |a| == |multiset(a)| == |multiset(b)| == |b|;
    AscendingUnique(SortAscending(a), SortAscending(b));
  }

  /** The arithmetic mean of a non-empty list. */
  function MeanOf(s: seq<real>): (m: real)
    requires |s| > 0
    ensures Min(s) <= m <= Max(s)
  {
    MeanWithin(s, Min(s), Max(s));
    Sum(s) / |s| as real
  }

  /** The estimate of one bin: none when it is empty, else its median or mean. */
  function Estimate(s: seq<real>, mode: Mode): (e: Option<real>)
    ensures e.None? <==> |s| == 0
    ensures e.Some? ==> Min(s) <= e.value <= Max(s)
    ensures e.Some? && mode == Median && |s| % 2 == 1 ==> e.value in s
  {
    if |s| == 0 then None
    else if mode == Median then Some(MedianOf(s))
    else Some(MeanOf(s))
  }

  /** A bin whose radii all lie in [lo, hi] gets an estimate in [lo, hi]. */
  lemma EstimateWithin(s: seq<real>, mode: Mode, lo: real, hi: real)
    requires Within(s, lo, hi)
    ensures Estimate(s, mode).Some? ==> lo <= Estimate(s, mode).value <= hi
  {
    if |s| > 0 {
      assert lo <= Min(s) && Max(s) <= hi;
    }
  }

  /** The angle at the centre of bin `k` of `bins`. */
  function BinCentre(k: nat, bins: nat): (theta: real)
    requires bins > 0
    ensures k as real * TwoPi < theta * bins as real < (k + 1) as real * TwoPi
  {
    var w := TwoPi / bins as real;
    assert w * bins as real == TwoPi;
    assert (k as real + 0.5) * w * bins as real == (k as real + 0.5) * TwoPi;
    (k as real + 0.5) * w
  }

  /**
   * Walks the bins in order, appending each bin's centre angle and its
   * estimate to the two output lists.
   */
  method AggregateBins(lists: seq<seq<real>>, mode: Mode) returns (rho: seq<Option<real>>, thetaBins: seq<real>)
    ensures |rho| == |lists| && |thetaBins| == |lists|
    ensures forall k :: 0 <= k < |lists| ==> rho[k] == Estimate(lists[k], mode)
    ensures forall k :: 0 <= k < |lists| ==> thetaBins[k] == BinCentre(k, |lists|)
  {
    var bins := |lists|;
    rho, thetaBins := [], [];
    for k := 0 to bins
      invariant |rho| == k && |thetaBins| == k
      invariant forall j :: 0 <= j < k ==> rho[j] == Estimate(lists[j], mode)
      invariant forall j :: 0 <= j < k ==> thetaBins[j] == BinCentre(j, bins)
    {
      thetaBins := thetaBins + [BinCentre(k, bins)];
      var arr := lists[k];
      if |arr| == 0 {
        rho := rho + [None];
      } else if mode == Median {
        rho := rho + [Some(MedianOf(arr))];
      } else {
        rho := rho + [Some(MeanOf(arr))];
      }
    }
  }
}
