/**
 * Circular gap-filling (polar_stats.py, lines 46-65).
 *
 * The bins are swept once in increasing order and the profile is updated in
 * place: an undefined bin `i` searches outward, distance `d = 1, 2, ...`,
 * looking at bin `(i - d) mod n` on the left and `(i + d) mod n` on the right
 * of the profile AS IT STANDS WHEN `i` IS REACHED, so bins filled earlier in
 * the sweep count as defined. The search stops at the first distance where
 * either side is defined.
 */
module GapFill {
  import opened Wrappers
  import opened RealSeqs
  import opened Circular

  type Profile = seq<Option<real>>

  predicate AllDefined(s: Profile)
  {
    forall k :: 0 <= k < |s| ==> s[k].Some?
  }

  /** Every defined bin of `s` has a value in [lo, hi]. */
  predicate DefinedWithin(s: Profile, lo: real, hi: real)
  {
    forall k :: 0 <= k < |s| && s[k].Some? ==> lo <= s[k].value <= hi
  }

  /** Lines 58-65: the value chosen from the left and right candidates. */
  function Resolve(left: Option<real>, right: Option<real>): (r: real)
    ensures left.Some? && right.Some? ==>
      (left.value <= r <= right.value) || (right.value <= r <= left.value)
    ensures left.Some? && right.None? ==> r == left.value
    ensures left.None? && right.Some? ==> r == right.value
    ensures left.None? && right.None? ==> r == 0.0
  {
    if left.Some? && right.Some? then 0.5 * (left.value + right.value)
    else if left.Some? then left.value
    else if right.Some? then right.value
    else 0.0
  }

  function LeftOf(s: Profile, i: nat, d: nat): Option<real>
    requires i < |s|
  {
    s[(i - d) % |s|]
  }

  function RightOf(s: Profile, i: nat, d: nat): Option<real>
    requires i < |s|
  {
    s[(i + d) % |s|]
  }

  /** Either neighbour of bin `i` at distance `d` is defined. */
  predicate HitAt(s: Profile, i: nat, d: nat)
    requires i < |s|
  {
    LeftOf(s, i, d).Some? || RightOf(s, i, d).Some?
  }

  /** The outcome of the search for bin `i`, continued from distance `d`. */
  function Search(s: Profile, i: nat, d: nat): (r: real)
    requires i < |s|
    ensures r == 0.0 || exists e :: d <= e < |s| && HitAt(s, i, e)
    decreases |s| - d
  {
    if d >= |s| then Resolve(None, None)
    else if HitAt(s, i, d) then Resolve(LeftOf(s, i, d), RightOf(s, i, d))
    else Search(s, i, d + 1)
  }

  /** Processing bin `i`: an undefined bin receives the outcome of its search. */
  function Step(s: Profile, i: nat): (t: Profile)
    requires i < |s|
    ensures |t| == |s|
  {
    if s[i].None? then s[i := Some(Search(s, i, 1))] else s
  }

  /** The profile after the sweep has processed bins 0 .. m-1. */
  function SweepUpTo(s: Profile, m: nat): (t: Profile)
    requires m <= |s|
    ensures |t| == |s|
    ensures forall k :: 0 <= k < m ==> t[k].Some?
    ensures forall k :: m <= k < |s| ==> t[k] == s[k]
  {
    if m == 0 then s else Step(SweepUpTo(s, m - 1), m - 1)
  }

  /** The gap-filled profile. */
  function Filled(s: Profile): (t: Profile)
    ensures |t| == |s| && AllDefined(t)
  {
    SweepUpTo(s, |s|)
  }

  /**
   * The search stops at the first distance `d0` where either side is
   * defined and resolves the candidates found there.
   */
  lemma {:induction false} SearchFirstHit(s: Profile, i: nat, d: nat, d0: nat)
    requires i < |s| && 1 <= d <= d0 < |s|
    requires HitAt(s, i, d0)
    requires forall e :: d <= e < d0 ==> !HitAt(s, i, e)
    ensures Search(s, i, d) == Resolve(LeftOf(s, i, d0), RightOf(s, i, d0))
    decreases d0 - d
  {
    if d < d0 {
      SearchFirstHit(s, i, d + 1, d0);
    }
  }

  /** With no defined neighbour at any distance, the search yields 0.0. */
  lemma {:induction false} SearchNoHit(s: Profile, i: nat, d: nat)
    requires i < |s| && 1 <= d
    requires forall e :: d <= e < |s| ==> !HitAt(s, i, e)
    ensures Search(s, i, d) == 0.0
    decreases |s| - d
  {
    if d < |s| {
      SearchNoHit(s, i, d + 1);
    }
  }

  /** A search that has a hit somewhere ahead returns a value in [lo, hi]. */
  lemma {:induction false} SearchWithin(s: Profile, i: nat, d: nat, dh: nat, lo: real, hi: real)
    requires i < |s| && 1 <= d <= dh < |s|
    requires HitAt(s, i, dh) && DefinedWithin(s, lo, hi)
    ensures lo <= Search(s, i, d) <= hi
    decreases dh - d
  {
    if !HitAt(s, i, d) {
      SearchWithin(s, i, d + 1, dh, lo, hi);
    } else {
      var l, r := LeftOf(s, i, d), RightOf(s, i, d);
      assert l.Some? ==> lo <= l.value <= hi;
      assert r.Some? ==> lo <= r.value <= hi;
    }
  }

  /** Steps already taken are never undone, and later bins are still untouched. */
  lemma {:induction false} SweepUpToShape(s: Profile, m: nat)
    requires m <= |s|
    ensures SweepUpTo(s, m) == Filled(s)[..m] + s[m..]
  {
    PrefixFinal(s, m, |s|);
    Untouched(s, m);
    var t := SweepUpTo(s, m);
    assert t == t[..m] + t[m..];
  }

  /** Bins at or after `m` have not been changed by the first `m` steps. */
  lemma {:induction false} Untouched(s: Profile, m: nat)
    requires m <= |s|
    ensures SweepUpTo(s, m)[m..] == s[m..]
  {
    if m > 0 {
      Untouched(s, m - 1);
    }
  }

  /** The first `m` bins no longer change once the sweep has passed them. */
  lemma {:induction false} PrefixFinal(s: Profile, m: nat, m': nat)
    requires m <= m' <= |s|
    ensures SweepUpTo(s, m')[..m] == SweepUpTo(s, m)[..m]
    decreases m' - m
  {
    if m < m' {
      PrefixFinal(s, m, m' - 1);
    }
  }

  /** After the sweep every bin is defined. */
  lemma FilledAllDefined(s: Profile)
    ensures AllDefined(Filled(s))
  {
    forall k | 0 <= k < |s|
      ensures Filled(s)[k].Some?
    {
      PrefixFinal(s, k + 1, |s|);
    }
  }

  /** A bin that was already defined keeps its value. */
  lemma FilledKeepsDefined(s: Profile, k: nat)
    requires k < |s| && s[k].Some?
    ensures Filled(s)[k] == s[k]
  {
    PrefixFinal(s, k + 1, |s|);
    Untouched(s, k);
  }

  /**
   * An undefined bin `i` receives the outcome of its search over the profile
   * in which bins 0 .. i-1 already hold their final, filled values.
   */
  lemma FilledUndefined(s: Profile, i: nat)
    requires i < |s| && s[i].None?
    ensures Filled(s)[i] == Some(Search(Filled(s)[..i] + s[i..], i, 1))
  {
    SweepUpToShape(s, i);
    PrefixFinal(s, i + 1, |s|);
  }

  /** Gap-filling changes nothing on a profile without undefined bins. */
  lemma FilledIdempotent(s: Profile)
    requires AllDefined(s)
    ensures Filled(s) == s
  {
    forall k | 0 <= k < |s|
      ensures Filled(s)[k] == s[k]
    {
      FilledKeepsDefined(s, k);
    }
  }

  /** Filling twice is filling once. */
  lemma FilledTwice(s: Profile)
    ensures Filled(Filled(s)) == Filled(s)
  {
    FilledAllDefined(s);
    FilledIdempotent(Filled(s));
  }

  /** If every bin starts undefined, every bin ends up 0.0. */
  lemma AllUndefinedBecomesZero(s: Profile)
    requires forall k :: 0 <= k < |s| ==> s[k].None?
    ensures forall k :: 0 <= k < |s| ==> Filled(s)[k] == Some(0.0)
  {
    ZeroPrefix(s, |s|);
  }

  /** Helper for AllUndefinedBecomesZero: bins before `m` end up 0.0. */
  lemma {:induction false} ZeroPrefix(s: Profile, m: nat)
    requires forall k :: 0 <= k < |s| ==> s[k].None?
    requires m <= |s|
    ensures forall k :: 0 <= k < m ==> Filled(s)[k] == Some(0.0)
  {
    if m > 0 {
      ZeroPrefix(s, m - 1);
      if m == 1 {
        ZeroFirst(s);
      } else {
        ZeroNext(s, m - 1);
      }
    }
  }

  /** The first bin of an all-undefined profile finds nothing and falls back to 0.0. */
  lemma ZeroFirst(s: Profile)
    requires |s| > 0 && forall k :: 0 <= k < |s| ==> s[k].None?
    ensures Filled(s)[0] == Some(0.0)
  {
    FilledUndefined(s, 0);
    assert Filled(s)[..0] + s[0..] == s;
    forall e | 1 <= e < |s|
      ensures !HitAt(s, 0, e)
    {
    }
    SearchNoHit(s, 0, 1);
  }

  /** A later bin sees its already-filled left neighbour 0.0 at distance 1. */
  lemma ZeroNext(s: Profile, k: nat)
    requires 0 < k < |s| && forall j :: 0 <= j < |s| ==> s[j].None?
    requires forall j :: 0 <= j < k ==> Filled(s)[j] == Some(0.0)
    ensures Filled(s)[k] == Some(0.0)
  {
    FilledUndefined(s, k);
    var t := Filled(s)[..k] + s[k..];
    var n := |s|;
    ModInRange(k - 1, n);
    assert t[k - 1] == Filled(s)[k - 1];
    if k + 1 < n {
      ModInRange(k + 1, n);
      assert t[k + 1] == s[k + 1];
    } else {
      ModInRange(0, n);
      assert (k + 1) % n == 0 % n;
      assert t[0] == Filled(s)[0];
    }
    SearchAfterZero(t, k);
  }

  lemma SearchAfterZero(t: Profile, k: nat)
    requires k < |t| && LeftOf(t, k, 1) == Some(0.0)
    requires RightOf(t, k, 1).None? || RightOf(t, k, 1) == Some(0.0)
    ensures Search(t, k, 1) == 0.0
  {
  }

  /**
   * When the sweep reaches bin `k > 0`, its left neighbour at distance 1 is
   * bin `k - 1` holding its final, defined value.
   */
  lemma LeftNeighbourFinal(s: Profile, k: nat)
    requires 0 < k < |s|
    ensures LeftOf(SweepUpTo(s, k), k, 1) == Filled(s)[k - 1]
    ensures LeftOf(SweepUpTo(s, k), k, 1).Some?
  {
    SweepUpToShape(s, k);
    FilledAllDefined(s);
    ModInRange(k - 1, |s|);
  }

  /**
   * The 0.0 fallback of lines 64-65 fires only when every bin of the input
   * is undefined, and then only for bin 0: a search that finds nothing at
   * any distance is the search of bin 0 in an all-undefined profile.
   */
  lemma FallbackOnlyAtFirstOfEmpty(s: Profile, i: nat)
    requires i < |s| && s[i].None?
    requires forall d :: 1 <= d < |s| ==> !HitAt(SweepUpTo(s, i), i, d)
    ensures i == 0
    ensures forall k :: 0 <= k < |s| ==> s[k].None?
  {
    if i > 0 {
      LeftNeighbourFinal(s, i);
      assert HitAt(SweepUpTo(s, i), i, 1);
      assert false;
    }
    forall k | 0 <= k < |s|
      ensures s[k].None?
    {
      if k > 0 {
        ModInRange(k, |s|);
        assert RightOf(s, 0, k) == s[k];
        assert !HitAt(SweepUpTo(s, 0), 0, k);
      }
    }
  }

  /**
   * In an all-undefined profile every bin after the first is filled from
   * its left neighbour, which already holds 0.0.
   */
  lemma LaterBinsSeeLeftNeighbour(s: Profile, k: nat)
    requires 0 < k < |s| && forall j :: 0 <= j < |s| ==> s[j].None?
    ensures HitAt(SweepUpTo(s, k), k, 1)
    ensures LeftOf(SweepUpTo(s, k), k, 1) == Some(0.0)
  {
    LeftNeighbourFinal(s, k);
    AllUndefinedBecomesZero(s);
  }

  /**
   * If some bin is defined and every defined bin lies in [lo, hi], every bin
   * of the filled profile lies in [lo, hi]: filled values are copies or
   * averages of defined ones, and the 0.0 fallback cannot fire.
   */
  lemma FilledWithin(s: Profile, j: nat, lo: real, hi: real)
    requires j < |s| && s[j].Some? && DefinedWithin(s, lo, hi)
    ensures AllDefined(Filled(s)) && DefinedWithin(Filled(s), lo, hi)
  {
    FilledAllDefined(s);
    SweepWithin(s, |s|, j, lo, hi);
  }

  lemma {:induction false} SweepWithin(s: Profile, m: nat, j: nat, lo: real, hi: real)
    requires m <= |s| && j < |s| && s[j].Some? && DefinedWithin(s, lo, hi)
    ensures SweepUpTo(s, m)[j].Some? && DefinedWithin(SweepUpTo(s, m), lo, hi)
  {
    if m > 0 {
      SweepWithin(s, m - 1, j, lo, hi);
      var st, i := SweepUpTo(s, m - 1), m - 1;
      if st[i].None? {
        var n := |s|;
        assert j != i;
        if j > i {
          ModInRange(j, n);
          assert RightOf(st, i, j - i) == st[j];
          SearchWithin(st, i, 1, j - i, lo, hi);
        } else {
          ModInRange(j, n);
          assert LeftOf(st, i, i - j) == st[j];
          SearchWithin(st, i, 1, i - j, lo, hi);
        }
      }
    }
  }

  /**
   * The in-place sweep: each undefined bin runs the outward search with
   * `left`/`right` candidates and a `break` at the first hit, then takes the
   * average, the single candidate, or 0.0.
   */
  method FillGaps(rho: array<Option<real>>)
    modifies rho
    ensures rho[..] == Filled(old(rho[..]))
  {
    var n := rho.Length;
    for i := 0 to n
      invariant rho[..] == SweepUpTo(old(rho[..]), i)
    {
      if rho[i].None? {
        var left: Option<real> := None;
        var right: Option<real> := None;
        var d := 1;
        while d < n
          invariant 1 <= d <= n
          invariant left.None? && right.None?
          invariant Search(rho[..], i, d) == Search(rho[..], i, 1)
        {
          var li := (i - d) % n;
          var ri := (i + d) % n;
          if left.None? && rho[li].Some? {
            left := rho[li];
          }
          if right.None? && rho[ri].Some? {
            right := rho[ri];
          }
          if left.Some? || right.Some? {
            assert Resolve(left, right) == Search(rho[..], i, 1);
            break;
          }
          d := d + 1;
        }
        assert Resolve(left, right) == Search(rho[..], i, 1);
        if left.Some? && right.Some? {
          rho[i] := Some(0.5 * (left.value + right.value));
        } else if left.Some? {
          rho[i] := left;
        } else if right.Some? {
          rho[i] := right;
        } else {
          rho[i] := Some(0.0);
        }
      }
    }
  }
}
