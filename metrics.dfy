/**
 * Accuracy metrics of the final profile against the reference radius
 * (polar_stats.py, lines 77-82). Every bin weighs the same. The square root
 * that turns the mean squared error into `sigma` is not modelled: the model
 * reports `sigma` squared and `sigma_rel` squared.
 */
module Metrics {
  import opened RealSeqs

  /** A real number or positive infinity. */
  datatype Extended = Finite(value: real) | PosInf

  /** Below or at this reference radius `sigma_rel` is infinite (`1e-9`). */
  const RefEpsilon: real := 0.000000001

  /** `x**2`, kept as a function so the solver unfolds products only on demand. */
  function Square(x: real): real { x * x }

  function Abs(x: real): (a: real)
    ensures a >= 0.0 && (a == x || a == -x)
  {
    if x < 0.0 then -x else x
  }

  /** `(rho_i - R_ref)**2` for every bin (line 78). */
  function SquaredErrors(rho: seq<real>, ref: real): (e: seq<real>)
    ensures |e| == |rho|
  {
    seq(|rho|, i requires 0 <= i < |rho| => Square(rho[i] - ref))
  }

  /** `abs(rho_i - R_ref)` for every bin (lines 80-81). */
  function AbsErrors(rho: seq<real>, ref: real): (e: seq<real>)
    ensures |e| == |rho|
  {
    seq(|rho|, i requires 0 <= i < |rho| => Abs(rho[i] - ref))
  }

  /** `sigma**2`: the mean of the squared errors over all bins. */
  function MeanSquaredError(rho: seq<real>, ref: real): (mse: real)
    requires |rho| > 0
    ensures mse >= 0.0
  {
    SquaresNonNegative(rho, ref);
    ZeroSumPrefix(SquaredErrors(rho, ref));
    Sum(SquaredErrors(rho, ref)) / |rho| as real
  }

  /** `mae`: the mean absolute error over all bins. */
  function MeanAbsError(rho: seq<real>, ref: real): (mae: real)
    requires |rho| > 0
    ensures mae >= 0.0
  {
    ZeroSumPrefix(AbsErrors(rho, ref));
    Sum(AbsErrors(rho, ref)) / |rho| as real
  }

  lemma SquaresNonNegative(rho: seq<real>, ref: real)
    ensures forall k :: 0 <= k < |rho| ==> SquaredErrors(rho, ref)[k] >= 0.0
  {
    forall k | 0 <= k < |rho|
      ensures SquaredErrors(rho, ref)[k] >= 0.0
    {
      var a := Abs(rho[k] - ref);
      SquareOfAbs(rho[k] - ref);
      assert a * a >= 0.0 * a;
    }
  }

  /** `max_abs`: the largest absolute error, attained at some bin. */
  function MaxAbsError(rho: seq<real>, ref: real): (m: real)
    requires |rho| > 0
    ensures forall k :: 0 <= k < |rho| ==> Abs(rho[k] - ref) <= m
    ensures exists k :: 0 <= k < |rho| && m == Abs(rho[k] - ref)
  {
    var e := AbsErrors(rho, ref);
    var m := Max(e);
    assert forall k :: 0 <= k < |rho| ==> e[k] == Abs(rho[k] - ref) <= m;
    var k :| 0 <= k < |e| && e[k] == m;
    assert m == Abs(rho[k] - ref);
    m
  }

  /**
   * `sigma_rel` squared: infinite exactly when the reference radius is at most
   * 1e-9, otherwise the value whose product with `R_ref**2` is `sigma**2`.
   */
  function RelativeSquared(mse: real, ref: real): (e: Extended)
    ensures e.PosInf? <==> ref <= RefEpsilon
    ensures e.Finite? ==> e.value * Square(ref) == mse
  {
    if ref > RefEpsilon then Finite(mse / Square(ref)) else PosInf
  }

  /**
   * `sigma_rel` is the non-negative square root of `squared`, the value the
   * model reports (lines 79 and 82; the square root of `+inf` is `+inf`).
   */
  predicate RootOf(sigmaRel: Extended, squared: Extended)
  {
    match sigmaRel
    case PosInf => squared.PosInf?
    case Finite(v) => squared.Finite? && v >= 0.0 && Square(v) == squared.value
  }

  /** A non-negative root of 0 is 0. */
  lemma RootOfZero(v: real)
    requires v >= 0.0 && Square(v) == 0.0
    ensures v == 0.0
  {
    if v > 0.0 {
      calc {
        Square(v);
        ==
        v * v;
        > { ProductPositive(v, v); }
        0.0;
      }
    }
  }

  /** Squaring is strictly increasing on the non-negative reals. */
  lemma SquareStrictlyIncreasing(v: real, w: real)
    requires 0.0 <= v < w
    ensures Square(v) < Square(w)
  {
    calc {
      Square(v);
      ==
      v * v;
      <= { assert v * v <= v * w; }
      v * w;
      < { ProductPositive(w - v, w); }
      w * w;
      ==
      Square(w);
    }
  }

  /** Non-negative roots are unique. */
  lemma RootUnique(v: real, w: real)
    requires v >= 0.0 && w >= 0.0 && Square(v) == Square(w)
    ensures v == w
  {
    if v < w {
      SquareStrictlyIncreasing(v, w);
    } else if w < v {
      SquareStrictlyIncreasing(w, v);
    }
  }

  /** A zero `sigma**2` gives a zero `sigma_rel**2` whenever `sigma_rel` is finite. */
  lemma ZeroRelative(ref: real)
    requires ref > RefEpsilon
    ensures RelativeSquared(0.0, ref) == Finite(0.0)
  {
    calc {
      Square(ref);
      ==
      ref * ref;
      > { ProductPositive(ref, ref); }
      0.0;
    }
  }

  lemma SquareOfAbs(d: real)
    ensures Square(Abs(d)) == Square(d)
  {
    if d < 0.0 {
      assert (-d) * (-d) == d * d;
    }
  }

  lemma SquareMonotone(a: real, m: real)
    requires 0.0 <= a <= m
    ensures Square(a) <= Square(m)
  {
    assert a * a <= a * m;
    assert a * m <= m * m;
  }

  /** `0 <= mae <= max_abs`. */
  lemma MaeBelowMax(rho: seq<real>, ref: real)
    requires |rho| > 0
    ensures 0.0 <= MeanAbsError(rho, ref) <= MaxAbsError(rho, ref)
  {
    var m, abs := MaxAbsError(rho, ref), AbsErrors(rho, ref);
    assert Within(abs, 0.0, m);
    MeanWithin(abs, 0.0, m);
  }

  lemma SquaredErrorsWithin(rho: seq<real>, ref: real, m: real)
    requires forall k :: 0 <= k < |rho| ==> Abs(rho[k] - ref) <= m
    ensures Within(SquaredErrors(rho, ref), 0.0, Square(m))
  {
    var sq := SquaredErrors(rho, ref);
    forall k | 0 <= k < |sq|
      ensures 0.0 <= sq[k] <= Square(m)
    {
      var a := Abs(rho[k] - ref);
      SquareOfAbs(rho[k] - ref);
      SquareMonotone(a, m);
    }
  }

  lemma MseBound(rho: seq<real>, ref: real, m: real)
    requires |rho| > 0
    requires forall k :: 0 <= k < |rho| ==> Abs(rho[k] - ref) <= m
    ensures 0.0 <= MeanSquaredError(rho, ref) <= Square(m)
  {
    SquaredErrorsWithin(rho, ref, m);
    MeanWithin(SquaredErrors(rho, ref), 0.0, Square(m));
  }

  /** `0 <= sigma**2 <= max_abs**2`. */
  lemma MseBelowMaxSquared(rho: seq<real>, ref: real)
    requires |rho| > 0
    ensures 0.0 <= MeanSquaredError(rho, ref) <= Square(MaxAbsError(rho, ref))
  {
    MseBound(rho, ref, MaxAbsError(rho, ref));
  }

  /** A sum of non-negative values is zero only if every value is zero. */
  lemma {:induction false} ZeroSumOfNonNegative(s: seq<real>)
    requires forall k :: 0 <= k < |s| ==> s[k] >= 0.0
    requires Sum(s) == 0.0
    ensures forall k :: 0 <= k < |s| ==> s[k] == 0.0
  {
    if |s| > 0 {
      var init := s[..|s| - 1];
      ZeroSumPrefix(init);
      ZeroSumOfNonNegative(init);
      assert forall k :: 0 <= k < |s| - 1 ==> s[k] == init[k];
    }
  }

  lemma ZeroSumPrefix(s: seq<real>)
    requires forall k :: 0 <= k < |s| ==> s[k] >= 0.0
    ensures Sum(s) >= 0.0
  {
    SumWithin(s, 0.0, if |s| == 0 then 0.0 else Max(s));
  }

  /** The profile is the exact reference circle exactly when `max_abs` is 0. */
  lemma ExactIffZeroMax(rho: seq<real>, ref: real)
    requires |rho| > 0
    ensures (forall k :: 0 <= k < |rho| ==> rho[k] == ref) <==> MaxAbsError(rho, ref) == 0.0
  {
    if MaxAbsError(rho, ref) == 0.0 {
      forall k | 0 <= k < |rho|
        ensures rho[k] == ref
      {
        assert Abs(rho[k] - ref) <= 0.0;
      }
    }
  }

  /** The profile is the exact reference circle exactly when `mae` is 0. */
  lemma ExactIffZeroMae(rho: seq<real>, ref: real)
    requires |rho| > 0
    ensures (forall k :: 0 <= k < |rho| ==> rho[k] == ref) <==> MeanAbsError(rho, ref) == 0.0
  {
    var abs := AbsErrors(rho, ref);
    if forall k :: 0 <= k < |rho| ==> rho[k] == ref {
      assert Within(abs, 0.0, 0.0);
      MeanWithin(abs, 0.0, 0.0);
    }
    if MeanAbsError(rho, ref) == 0.0 {
      MultiplyBack(Sum(abs), |rho| as real);
      ZeroSumOfNonNegative(abs);
      forall k | 0 <= k < |rho|
        ensures rho[k] == ref
      {
        assert abs[k] == 0.0;
      }
    }
  }

  /** On the exact reference circle `sigma**2` is 0. */
  lemma ExactZeroMse(rho: seq<real>, ref: real)
    requires |rho| > 0
    requires forall k :: 0 <= k < |rho| ==> rho[k] == ref
    ensures MeanSquaredError(rho, ref) == 0.0
  {
    var sq := SquaredErrors(rho, ref);
    assert Within(sq, 0.0, 0.0);
    MeanWithin(sq, 0.0, 0.0);
  }

  lemma ProductPositive(e: real, f: real)
    requires e > 0.0 && f > 0.0
    ensures e * f > 0.0
  {
  }

  /** A sum of non-negative values with one positive value is positive. */
  lemma {:induction false} PositiveSum(s: seq<real>, j: int)
    requires 0 <= j < |s| && s[j] > 0.0
    requires forall k :: 0 <= k < |s| ==> s[k] >= 0.0
    ensures Sum(s) > 0.0
  {
    var init := s[..|s| - 1];
    assert forall k :: 0 <= k < |init| ==> init[k] == s[k];
    if j == |s| - 1 {
      ZeroSumPrefix(init);
    } else {
      PositiveSum(init, j);
    }
  }

  lemma SquaredErrorPositive(rho: seq<real>, ref: real, j: int)
    requires 0 <= j < |rho| && rho[j] != ref
    ensures SquaredErrors(rho, ref)[j] > 0.0
  {
    var a := Abs(rho[j] - ref);
    calc {
      SquaredErrors(rho, ref)[j];
      == { SquareOfAbs(rho[j] - ref); }
      Square(a);
      ==
      a * a;
      > { ProductPositive(a, a); }
      0.0;
    }
  }

  /** A bin off the reference circle makes `sigma**2` positive. */
  lemma OffCirclePositiveMse(rho: seq<real>, ref: real, j: int)
    requires 0 <= j < |rho| && rho[j] != ref
    ensures MeanSquaredError(rho, ref) > 0.0
  {
    var sq := SquaredErrors(rho, ref);
    SquaredErrorPositive(rho, ref, j);
    SquaredErrorsWithin(rho, ref, MaxAbsError(rho, ref));
    PositiveSum(sq, j);
  }

  /** The profile is the exact reference circle exactly when `sigma**2` is 0. */
  lemma ExactIffZeroMse(rho: seq<real>, ref: real)
    requires |rho| > 0
    ensures (forall k :: 0 <= k < |rho| ==> rho[k] == ref) <==> MeanSquaredError(rho, ref) == 0.0
  {
    if forall k :: 0 <= k < |rho| ==> rho[k] == ref {
      ExactZeroMse(rho, ref);
    } else {
      var j :| 0 <= j < |rho| && rho[j] != ref;
      OffCirclePositiveMse(rho, ref, j);
    }
  }

  lemma MultiplyBack(x: real, n: real)
    requires n > 0.0 && x / n == 0.0
    ensures x == 0.0
  {
    assert x == (x / n) * n;
  }
}
