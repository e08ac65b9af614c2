/**
 * Angular binning of polar samples (polar_stats.py, lines 23-28).
 *
 * A sample's angle is represented by the fraction of a full turn it covers,
 * `frac = theta / (2*pi)`. The coordinate transform guarantees `0 <= frac <= 1`;
 * `frac == 1` is the floating-point case in which `theta / (2*pi) * bins`
 * rounds up to exactly `bins`, which the source clamps to the last bin.
 */
module Binning {

  /** One point re-expressed around the centre: turn fraction and radius. */
  datatype PolarSample = PolarSample(frac: real, r: real)

  /** The sample's angle lies in the closed turn [0, 1]. */
  predicate InTurn(p: PolarSample)
  {
    0.0 <= p.frac <= 1.0
  }

  predicate AllInTurn(ps: seq<PolarSample>)
  {
    forall j :: 0 <= j < |ps| ==> InTurn(ps[j])
  }

  /**
   * The bin a turn fraction falls into: `floor(frac * bins)`, with the
   * result `bins` clamped to `bins - 1`. Bin `k` covers [k/bins, (k+1)/bins).
   */
  function BinIndex(frac: real, bins: nat): (k: nat)
    requires bins > 0 && 0.0 <= frac <= 1.0
    ensures k < bins
    ensures frac < 1.0 ==> k as real <= frac * bins as real < (k + 1) as real
    ensures frac == 1.0 ==> k == bins - 1
  {
    var n := bins as real;
    var x := frac * n;
    assert 0.0 <= x <= n by {
      assert n - x == (1.0 - frac) * n;
    }
    var f := x.Floor;
    if f == bins then bins - 1 else f
  }

  /** The radii of the samples that fall into bin `k`, in input order. */
  function RadiiIn(ps: seq<PolarSample>, bins: nat, k: nat): seq<real>
    requires bins > 0 && AllInTurn(ps)
  {
    if |ps| == 0 then []
    else
      var last := ps[|ps| - 1];
      RadiiIn(ps[..|ps| - 1], bins, k) + (if BinIndex(last.frac, bins) == k then [last.r] else [])
  }

  /** The bin lists as a whole: entry `k` holds `RadiiIn(ps, bins, k)`. */
  function BinLists(ps: seq<PolarSample>, bins: nat): (lists: seq<seq<real>>)
    requires bins > 0 && AllInTurn(ps)
    ensures |lists| == bins
  {
    seq(bins, k requires 0 <= k < bins => RadiiIn(ps, bins, k))
  }

  /** The number of radii held by all bins together. */
  function TotalLength(lists: seq<seq<real>>): nat
  {
    if |lists| == 0 then 0 else TotalLength(lists[..|lists| - 1]) + |lists[|lists| - 1]|
  }

  /** Appending one radius to one bin adds exactly one to the total. */
  lemma {:induction false} TotalLengthAppend(lists: seq<seq<real>>, k: nat, r: real)
    requires k < |lists|
    ensures TotalLength(lists[k := lists[k] + [r]]) == TotalLength(lists) + 1
    decreases |lists|
  {
    var lists' := lists[k := lists[k] + [r]];
    var n := |lists|;
    assert lists'[..n - 1] == if k < n - 1 then lists[..n - 1][k := lists[k] + [r]] else lists[..n - 1];
    if k < n - 1 {
      TotalLengthAppend(lists[..n - 1], k, r);
    }
  }

  /** Every sample's radius appears in the list of the bin its angle selects. */
  lemma {:induction false} SampleInItsBin(ps: seq<PolarSample>, bins: nat, j: nat)
    requires bins > 0 && AllInTurn(ps) && j < |ps|
    ensures ps[j].r in RadiiIn(ps, bins, BinIndex(ps[j].frac, bins))
    decreases |ps|
  {
    var k := BinIndex(ps[j].frac, bins);
    if j < |ps| - 1 {
      assert ps[..|ps| - 1][j] == ps[j];
      SampleInItsBin(ps[..|ps| - 1], bins, j);
    }
  }

  /**
   * Distributes the samples over `bins` initially empty lists, appending each
   * radius to the list of its bin, in input order.
   */
  method BinSamples(ps: seq<PolarSample>, bins: nat) returns (lists: seq<seq<real>>)
    requires bins > 0 && AllInTurn(ps)
    ensures lists == BinLists(ps, bins)
  {
    lists := seq(bins, _ => []);
    for i := 0 to |ps|
      invariant |lists| == bins
      invariant forall k :: 0 <= k < bins ==> lists[k] == RadiiIn(ps[..i], bins, k)
    {
      var k := BinIndex(ps[i].frac, bins);
      lists := lists[k := lists[k] + [ps[i].r]];
      assert ps[..i + 1][..i] == ps[..i];
    }
    assert ps[..|ps|] == ps;
  }

  lemma {:induction false} EmptyListsTotal(lists: seq<seq<real>>)
    requires forall k :: 0 <= k < |lists| ==> lists[k] == []
    ensures TotalLength(lists) == 0
  {
    if |lists| > 0 {
      EmptyListsTotal(lists[..|lists| - 1]);
    }
  }

  /** No sample is dropped or duplicated: the bins hold exactly |ps| radii. */
  lemma {:induction false} BinListsTotal(ps: seq<PolarSample>, bins: nat)
    requires bins > 0 && AllInTurn(ps)
    ensures TotalLength(BinLists(ps, bins)) == |ps|
  {
    if |ps| == 0 {
      EmptyListsTotal(BinLists(ps, bins));
    } else {
      var init, last := ps[..|ps| - 1], ps[|ps| - 1];
      var k := BinIndex(last.frac, bins);
      var before := BinLists(init, bins);
      BinListsTotal(init, bins);
      var after := BinLists(ps, bins);
      forall j | 0 <= j < bins
        ensures after[j] == before[k := before[k] + [last.r]][j]
      {
        assert after[j] == RadiiIn(init, bins, j) + (if k == j then [last.r] else []);
      }
      assert after == before[k := before[k] + [last.r]];
      TotalLengthAppend(before, k, last.r);
    }
  }

  /** A bin only ever holds radii of the input samples: bounds on radii carry over. */
  lemma {:induction false} RadiiInWithin(ps: seq<PolarSample>, bins: nat, k: nat, lo: real, hi: real)
    requires bins > 0 && AllInTurn(ps)
    requires forall j :: 0 <= j < |ps| ==> lo <= ps[j].r <= hi
    ensures forall x :: 0 <= x < |RadiiIn(ps, bins, k)| ==> lo <= RadiiIn(ps, bins, k)[x] <= hi
  {
    if |ps| > 0 {
      RadiiInWithin(ps[..|ps| - 1], bins, k, lo, hi);
    }
  }
}
