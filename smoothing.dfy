/**
 * Circular smoothing (polar_stats.py, lines 67-75): each bin becomes the
 * unweighted mean of the 2h+1 bins centred on it, indices taken modulo the
 * number of bins. It runs only when enabled and `h > 0`.
 */
module Smoothing {
  import opened RealSeqs
  import opened Circular

  /** The sum of `s[(i + d) mod |s|]` for `lo <= d < hi`, accumulated upward in `d`. */
  function WindowSum(s: seq<real>, i: int, lo: int, hi: int): real
    requires |s| > 0
    decreases hi - lo
  {
    if hi <= lo then 0.0 else WindowSum(s, i, lo, hi - 1) + s[(i + hi - 1) % |s|]
  }

  /** The smoothed profile for half-width `h`. */
  function Smoothed(s: seq<real>, h: int): (t: seq<real>)
    requires h > 0
    ensures |t| == |s|
  {
    seq(|s|, i requires 0 <= i < |s| => WindowSum(s, i, -h, h + 1) / (2 * h + 1) as real)
  }

  /** The smoothing stage: the smoothed profile when enabled with `h > 0`, else the input. */
  function SmoothStage(s: seq<real>, enabled: bool, h: int): (t: seq<real>)
    ensures |t| == |s|
  {
    if enabled && h > 0 then Smoothed(s, h) else s
  }

  /** A window of `hi - lo` values in [a, b] sums to a value in [(hi-lo)*a, (hi-lo)*b]. */
  lemma {:induction false} WindowSumWithin(s: seq<real>, i: int, lo: int, hi: int, a: real, b: real)
    requires |s| > 0 && lo <= hi && Within(s, a, b)
    ensures (hi - lo) as real * a <= WindowSum(s, i, lo, hi) <= (hi - lo) as real * b
    decreases hi - lo
  {
    if lo < hi {
      WindowSumWithin(s, i, lo, hi - 1, a, b);
      var x := s[(i + hi - 1) % |s|];
      assert a <= x <= b;
    }
  }

  /** Smoothing never leaves the range of its input: values in [a, b] stay in [a, b]. */
  lemma SmoothedWithin(s: seq<real>, h: int, a: real, b: real)
    requires h > 0 && Within(s, a, b)
    ensures Within(Smoothed(s, h), a, b)
  {
    var t := Smoothed(s, h);
    forall i | 0 <= i < |s|
      ensures a <= t[i] <= b
    {
      var w := (2 * h + 1) as real;
      WindowSumWithin(s, i, -h, h + 1, a, b);
      assert (h + 1 - -h) as real == w;
      DivideBounds(WindowSum(s, i, -h, h + 1), w, a, b);
    }
  }

  /** `Shifted(s, c, m)` is the sum of `s[(j + c) mod |s|]` for `0 <= j < m`. */
  function Shifted(s: seq<real>, c: int, m: nat): real
    requires |s| > 0
  {
    if m == 0 then 0.0 else Shifted(s, c, m - 1) + s[(m - 1 + c) % |s|]
  }

  /** `Total(s, lo, hi, m)` is the sum over bins `0 <= i < m` of their window sums. */
  function Total(s: seq<real>, lo: int, hi: int, m: nat): real
    requires |s| > 0
  {
    if m == 0 then 0.0 else Total(s, lo, hi, m - 1) + WindowSum(s, m - 1, lo, hi)
  }

  lemma {:induction false} ShiftedFromZero(s: seq<real>, m: nat)
    requires 0 < |s| && m <= |s|
    ensures Shifted(s, 0, m) == Sum(s[..m])
  {
    if m > 0 {
      ShiftedFromZero(s, m - 1);
      assert s[..m][..m - 1] == s[..m - 1];
      assert (m - 1 + 0) % |s| == m - 1;
    }
  }

  lemma {:induction false} ShiftedPeel(s: seq<real>, c: int, m: nat)
    requires |s| > 0
    ensures Shifted(s, c, m + 1) == s[c % |s|] + Shifted(s, c + 1, m)
  {
    if m > 0 {
      ShiftedPeel(s, c, m - 1);
      assert m + c == m - 1 + (c + 1);
    }
  }

  lemma ShiftedStep(s: seq<real>, c: int)
    requires |s| > 0
    ensures Shifted(s, c + 1, |s|) == Shifted(s, c, |s|)
  {
    var n := |s|;
    ShiftedPeel(s, c, n);
    ModPeriodic(c, n);
  }

  /** Summing a circularly rotated profile gives the profile's own sum. */
  lemma {:induction false} ShiftedFull(s: seq<real>, c: int)
    requires |s| > 0
    ensures Shifted(s, c, |s|) == Sum(s)
    decreases if c >= 0 then c else -c
  {
    if c == 0 {
      ShiftedFromZero(s, |s|);
      assert s[..|s|] == s;
    } else if c > 0 {
      ShiftedStep(s, c - 1);
      ShiftedFull(s, c - 1);
    } else {
      ShiftedStep(s, c);
      ShiftedFull(s, c + 1);
    }
  }

  lemma {:induction false} TotalSplit(s: seq<real>, lo: int, hi: int, m: nat)
    requires |s| > 0 && lo < hi
    ensures Total(s, lo, hi, m) == Total(s, lo, hi - 1, m) + Shifted(s, hi - 1, m)
  {
    if m > 0 {
      TotalSplit(s, lo, hi, m - 1);
      assert m - 1 + hi - 1 == m - 1 + (hi - 1);
    }
  }

  /** Over a full turn, every offset in [lo, hi) contributes the whole profile once. */
  lemma {:induction false} TotalFull(s: seq<real>, lo: int, hi: int)
    requires |s| > 0 && lo <= hi
    ensures Total(s, lo, hi, |s|) == (hi - lo) as real * Sum(s)
    decreases hi - lo
  {
    if lo == hi {
      TotalEmpty(s, lo, |s|);
    } else {
      TotalSplit(s, lo, hi, |s|);
      TotalFull(s, lo, hi - 1);
      ShiftedFull(s, hi - 1);
    }
  }

  lemma {:induction false} TotalEmpty(s: seq<real>, lo: int, m: nat)
    requires |s| > 0
    ensures Total(s, lo, lo, m) == 0.0
  {
    if m > 0 {
      TotalEmpty(s, lo, m - 1);
    }
  }

  lemma {:induction false} SmoothedPrefixSum(s: seq<real>, h: int, m: nat)
    requires h > 0 && 0 < |s| && m <= |s|
    ensures Sum(Smoothed(s, h)[..m]) == Total(s, -h, h + 1, m) / (2 * h + 1) as real
  {
    if m > 0 {
      var t, w := Smoothed(s, h), (2 * h + 1) as real;
      SmoothedPrefixSum(s, h, m - 1);
      assert t[..m][..m - 1] == t[..m - 1];
      DivideSum(Total(s, -h, h + 1, m - 1), WindowSum(s, m - 1, -h, h + 1), w);
    }
  }

  lemma DivideSum(a: real, b: real, w: real)
    requires w != 0.0
    ensures a / w + b / w == (a + b) / w
  {
  }

  lemma MultiplyDivide(x: real, w: real)
    requires w != 0.0
    ensures (w * x) / w == x
  {
  }

  /** Smoothing preserves the total, hence the mean, of the profile. */
  lemma SmoothedTotal(s: seq<real>, h: int)
    requires h > 0
    ensures Sum(Smoothed(s, h)) == Sum(s)
  {
    if |s| > 0 {
      var t, w := Smoothed(s, h), (2 * h + 1) as real;
      SmoothedPrefixSum(s, h, |s|);
      assert t[..|s|] == t;
      TotalFull(s, -h, h + 1);
      assert (h + 1 - -h) as real == w;
      MultiplyDivide(Sum(s), w);
    } else {
      assert Smoothed(s, h) == [];
    }
  }

  /**
   * Builds the smoothed profile in a fresh buffer: for each bin an
   * accumulator adds the 2h+1 wrapped neighbours, then divides by 2h+1.
   */
  method Smooth(rho: seq<real>, enabled: bool, h: int) returns (out: seq<real>)
    ensures enabled && h > 0 ==> out == Smoothed(rho, h)
    ensures !(enabled && h > 0) ==> out == rho
  {
    out := rho;
    if enabled && h > 0 {
      var n := |rho|;
      var smoothed := new real[n](_ => 0.0);
      var w := 2 * h + 1;
      for i := 0 to n
        invariant forall k :: 0 <= k < i ==> smoothed[k] == Smoothed(rho, h)[k]
      {
        var acc := 0.0;
        for d := -h to h + 1
          invariant acc == WindowSum(rho, i, -h, d)
        {
          acc := acc + rho[(i + d) % n];
        }
        smoothed[i] := acc / w as real;
      }
      out := smoothed[..];
    }
  }
}
