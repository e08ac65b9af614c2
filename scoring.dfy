/**
 * The score the web endpoint derives from `sigma_rel` (app.py, line 63):
 * `max(0, min(100, int(round(100 - slope * sigma_rel))))`, with Python's
 * `round`, which rounds halves to the even neighbour.
 */
module Scoring {
  import opened Wrappers
  import opened Metrics
  import opened Binning
  import opened PolarStats

  /** `round` of an infinite or NaN float raises (OverflowError, ValueError). */
  datatype ScoreError = RoundOfNonFinite

  /** The default of the SCORE_SLOPE setting (app.py, line 9). */
  const DefaultSlope: int := 200

  /** Python's `round(x)`: the nearest integer, halves going to the even one. */
  function RoundHalfEven(x: real): (n: int)
    ensures x - 0.5 <= n as real <= x + 0.5
    ensures (n as real - x == 0.5 || x - n as real == 0.5) ==> n % 2 == 0
  {
    var f := x.Floor;
    var d := x - f as real;
    if d < 0.5 then f
    else if d > 0.5 then f + 1
    else if f % 2 == 0 then f
    else f + 1
  }

  /** `max(0, min(100, n))`. */
  function Clamp(n: int): (c: int)
    ensures 0 <= c <= 100
    ensures 0 <= n <= 100 ==> c == n
    ensures n < 0 ==> c == 0
    ensures n > 100 ==> c == 100
  {
    if n < 0 then 0 else if n > 100 then 100 else n
  }

  /**
   * The score as app.py computes it. An infinite `sigma_rel` makes the
   * argument of `round` infinite (or NaN when the slope is 0), and `round`
   * raises instead of returning.
   */
  function ScoreAsWritten(sigmaRel: Extended, slope: int): (r: Result<int, ScoreError>)
    ensures r.Failure? <==> sigmaRel.PosInf?
    ensures r.Success? ==> 0 <= r.value <= 100
  {
    match sigmaRel
    case PosInf => Failure(RoundOfNonFinite)
    case Finite(v) => Success(Clamp(RoundHalfEven(100.0 - slope as real * v)))
  }

  /** The submission whose reference radius is at most 1e-9 gets no score at all. */
  lemma AsWrittenFailsOnInfinite(slope: int)
    ensures ScoreAsWritten(PosInf, slope) == Failure(RoundOfNonFinite)
  {
  }

  /**
   * The corrected score: an infinite `sigma_rel` (the degenerate reference
   * radius of polar_stats.py line 82) gets the floor 0 that the clamp gives
   * every bad trace; a finite one is rounded and clamped as app.py does.
   */
  function Score(sigmaRel: Extended, slope: int): (s: int)
    ensures 0 <= s <= 100
    ensures sigmaRel.PosInf? ==> s == 0
  {
    match sigmaRel
    case PosInf => 0
    case Finite(v) => Clamp(RoundHalfEven(100.0 - slope as real * v))
  }

  /** Wherever app.py returns a score, it is the corrected score. */
  lemma ScoreAgreesWhenFinite(v: real, slope: int)
    ensures ScoreAsWritten(Finite(v), slope) == Success(Score(Finite(v), slope))
  {
  }

  /** A perfect trace (`sigma_rel == 0`) scores 100. */
  lemma PerfectTraceScoresFull(slope: int)
    ensures Score(Finite(0.0), slope) == 100
  {
  }

  /** With the default slope, `sigma_rel == 0.375` scores 100 - 75 = 25. */
  lemma SmallCircleScore()
    ensures Score(Finite(0.375), DefaultSlope) == 25
  {
    assert 100.0 - 200.0 * 0.375 == 25.0;
  }

  /**
   * End to end: a submission whose reference radius is at most 1e-9 gets
   * no score from app.py, and the corrected score 0.
   */
  lemma DegenerateReferenceScore(ps: seq<PolarSample>, ref: real, cfg: Config, sigmaRel: Extended, slope: int)
    requires AllInTurn(ps) && |ps| >= MinPoints && cfg.bins > 0 && ref <= RefEpsilon
    requires RootOf(sigmaRel, PolarStatsResult(ps, ref, cfg).value.sigmaRelSquared)
    ensures ScoreAsWritten(sigmaRel, slope).Failure?
    ensures Score(sigmaRel, slope) == 0
  {
  }

  /** End to end: samples all on the reference circle score 100. */
  lemma ExactCircleScoresFull(ps: seq<PolarSample>, ref: real, cfg: Config, sigmaRel: Extended, slope: int)
    requires AllInTurn(ps) && |ps| >= MinPoints && cfg.bins > 0 && ref > RefEpsilon
    requires forall j :: 0 <= j < |ps| ==> ps[j].r == ref
    requires RootOf(sigmaRel, PolarStatsResult(ps, ref, cfg).value.sigmaRelSquared)
    ensures ScoreAsWritten(sigmaRel, slope) == Success(100)
  {
    ExactCircleZeroError(ps, ref, cfg);
    RootOfZero(sigmaRel.value);
  }

  /**
   * End to end: twenty or more samples at radius 100 against the reference
   * radius 160 with the default configuration give `sigma_rel == 0.375`,
   * which app.py scores 25 with the default slope.
   */
  lemma SmallCircleScoresTwentyFive(ps: seq<PolarSample>, sigmaRel: Extended)
    requires AllInTurn(ps) && |ps| >= MinPoints
    requires forall j :: 0 <= j < |ps| ==> ps[j].r == 100.0
    requires RootOf(sigmaRel, PolarStatsResult(ps, 160.0, DefaultConfig).value.sigmaRelSquared)
    ensures sigmaRel == Finite(0.375)
    ensures ScoreAsWritten(sigmaRel, DefaultSlope) == Success(25)
  {
    SmallCircleScenario(ps);
    assert Square(0.375) == 0.140625;
    RootUnique(sigmaRel.value, 0.375);
    SmallCircleScore();
  }
}
