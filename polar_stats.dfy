/**
 * The composed computation `compute_polar_stats` (polar_stats.py, lines 4-92):
 * guard, binning, per-bin aggregation, gap-filling, optional smoothing and
 * metrics, first as a specification function and then as the method that
 * runs the stages the way the source does.
 */
module PolarStats {
  import opened Wrappers
  import opened RealSeqs
  import opened Binning
  import opened Aggregation
  import opened GapFill
  import opened Smoothing
  import opened Metrics

  /** Fewer samples than this are rejected (line 10). */
  const MinPoints: nat := 20

  /** The keyword parameters of `compute_polar_stats`. */
  datatype Config = Config(bins: int, mode: Mode, smooth: bool, halfWidth: int)

  /** `bins=720, robust="median", kernel_smooth=True, kernel_halfwidth_bins=2`. */
  const DefaultConfig: Config := Config(720, Median, true, 2)

  datatype Error =
    | TooFewPoints        // the ValueError of line 11
    | BinIndexOutOfRange  // the IndexError line 28 raises when bins <= 0

  /**
   * The returned record. `sigmaSquared` is `sigma**2` and `sigmaRelSquared`
   * is `sigma_rel**2`; the square root is not modelled.
   */
  datatype Statistics = Statistics(
    rRef: real,
    sigmaSquared: real,
    sigmaRelSquared: Extended,
    mae: real,
    maxAbs: real,
    profile: seq<real>,
    thetaBins: seq<real>)

  /** The values of a profile in which every bin is defined. */
  function Values(s: Profile): (v: seq<real>)
    requires AllDefined(s)
    ensures |v| == |s| && forall k :: 0 <= k < |s| ==> s[k] == Some(v[k])
  {
    seq(|s|, k requires 0 <= k < |s| => s[k].value)
  }

  /** The per-bin estimates of a list of bins. */
  function Estimates(lists: seq<seq<real>>, mode: Mode): (e: Profile)
    ensures |e| == |lists|
  {
    seq(|lists|, k requires 0 <= k < |lists| => Estimate(lists[k], mode))
  }

  /** The centre angles of all bins. */
  function CentreAngles(bins: nat): (t: seq<real>)
    requires bins > 0
    ensures |t| == bins
  {
    seq(bins, k requires 0 <= k < bins => BinCentre(k, bins))
  }

  /** The gap-filled profile, before smoothing. */
  function FilledProfile(ps: seq<PolarSample>, cfg: Config): (v: seq<real>)
    requires cfg.bins > 0 && AllInTurn(ps)
    ensures |v| == cfg.bins
  {
    var filled := Filled(Estimates(BinLists(ps, cfg.bins), cfg.mode));
    FilledAllDefined(Estimates(BinLists(ps, cfg.bins), cfg.mode));
    Values(filled)
  }

  /** The final profile, after the optional smoothing. */
  function FinalProfile(ps: seq<PolarSample>, cfg: Config): (v: seq<real>)
    requires cfg.bins > 0 && AllInTurn(ps)
    ensures |v| == cfg.bins
  {
    SmoothStage(FilledProfile(ps, cfg), cfg.smooth, cfg.halfWidth)
  }

  /** Lines 77-92: the metrics of a final profile and the returned record. */
  function Measure(profile: seq<real>, ref: real, thetaBins: seq<real>): (st: Statistics)
    requires |profile| > 0
    ensures st.profile == profile && st.thetaBins == thetaBins && st.rRef == ref
    ensures 0.0 <= st.mae <= st.maxAbs
    ensures 0.0 <= st.sigmaSquared <= Square(st.maxAbs)
    ensures forall k :: 0 <= k < |profile| ==> Abs(profile[k] - ref) <= st.maxAbs
    ensures st.sigmaRelSquared.PosInf? <==> ref <= RefEpsilon
    ensures st.sigmaRelSquared.Finite? ==> st.sigmaRelSquared.value * Square(ref) == st.sigmaSquared
  {
    var mse := MeanSquaredError(profile, ref);
    var rel := RelativeSquared(mse, ref);
    MaeBelowMax(profile, ref);
    MseBelowMaxSquared(profile, ref);
    Statistics(ref, mse, rel, MeanAbsError(profile, ref), MaxAbsError(profile, ref), profile, thetaBins)
  }

  /** What `compute_polar_stats` returns or raises for given samples. */
  function PolarStatsResult(ps: seq<PolarSample>, ref: real, cfg: Config): (res: Result<Statistics, Error>)
    requires AllInTurn(ps)
    ensures res == Failure(TooFewPoints) <==> |ps| < MinPoints
    ensures res.Success? <==> |ps| >= MinPoints && cfg.bins > 0
    ensures res.Success? ==> |res.value.profile| == cfg.bins && |res.value.thetaBins| == cfg.bins
    ensures res.Success? ==> forall k :: 0 <= k < cfg.bins ==> res.value.thetaBins[k] == BinCentre(k, cfg.bins)
  {
    if |ps| < MinPoints then Failure(TooFewPoints)
    else if cfg.bins <= 0 then Failure(BinIndexOutOfRange)
    else Success(Measure(FinalProfile(ps, cfg), ref, CentreAngles(cfg.bins)))
  }

  /**
   * Runs the stages in the source's order: the guard, the binning loop, the
   * aggregation loop, the in-place gap-filling sweep over a buffer, the
   * smoothing pass, and the metrics.
   */
  method ComputePolarStats(ps: seq<PolarSample>, ref: real, cfg: Config) returns (res: Result<Statistics, Error>)
    requires AllInTurn(ps)
    ensures res == PolarStatsResult(ps, ref, cfg)
  {
    if |ps| < MinPoints {
      return Failure(TooFewPoints);
    }
    if cfg.bins <= 0 {
      return Failure(BinIndexOutOfRange);
    }
    var bins := cfg.bins;
    var lists := BinSamples(ps, bins);
    var rho, thetaBins := AggregateBins(lists, cfg.mode);
    assert rho == Estimates(BinLists(ps, bins), cfg.mode);
    assert thetaBins == CentreAngles(bins);
    var buffer := new Option<real>[bins](k requires 0 <= k < bins => rho[k]);
    assert buffer[..] == rho;
    FillGaps(buffer);
    FilledAllDefined(rho);
    var values := Values(buffer[..]);
    var profile := Smooth(values, cfg.smooth, cfg.halfWidth);
    res := Success(Measure(profile, ref, thetaBins));
  }

  /**
   * Bounds on the sample radii are bounds on the whole final profile: every
   * stage produces values that are medians, means, copies or averages of
   * radii, and the 0.0 fallback cannot fire once there is a sample.
   */
  lemma ProfileWithinRadii(ps: seq<PolarSample>, cfg: Config, lo: real, hi: real)
    requires cfg.bins > 0 && AllInTurn(ps) && |ps| > 0
    requires forall j :: 0 <= j < |ps| ==> lo <= ps[j].r <= hi
    ensures Within(FinalProfile(ps, cfg), lo, hi)
  {
    var bins := cfg.bins;
    var lists := BinLists(ps, bins);
    var est := Estimates(lists, cfg.mode);
    forall k | 0 <= k < bins
      ensures est[k].Some? ==> lo <= est[k].value <= hi
    {
      RadiiInWithin(ps, bins, k, lo, hi);
      EstimateWithin(lists[k], cfg.mode, lo, hi);
    }
    var k0 := BinIndex(ps[0].frac, bins);
    SampleInItsBin(ps, bins, 0);
    assert est[k0].Some?;
    FilledWithin(est, k0, lo, hi);
    var filled := FilledProfile(ps, cfg);
    assert Within(filled, lo, hi);
    if cfg.smooth && cfg.halfWidth > 0 {
      SmoothedWithin(filled, cfg.halfWidth, lo, hi);
    }
  }

  /**
   * Samples that all lie exactly on the reference circle give zero error,
   * whatever their angular distribution: `sigma`, `mae` and `max_abs` are 0,
   * and so is `sigma_rel` when the reference radius exceeds 1e-9.
   */
  lemma ExactCircleZeroError(ps: seq<PolarSample>, ref: real, cfg: Config)
    requires AllInTurn(ps) && |ps| >= MinPoints && cfg.bins > 0
    requires forall j :: 0 <= j < |ps| ==> ps[j].r == ref
    ensures PolarStatsResult(ps, ref, cfg).Success?
    ensures PolarStatsResult(ps, ref, cfg).value.sigmaSquared == 0.0
    ensures PolarStatsResult(ps, ref, cfg).value.mae == 0.0
    ensures PolarStatsResult(ps, ref, cfg).value.maxAbs == 0.0
    ensures ref > RefEpsilon ==> PolarStatsResult(ps, ref, cfg).value.sigmaRelSquared == Finite(0.0)
  {
    UniformCircleError(ps, ref, ref, cfg);
    var profile := FinalProfile(ps, cfg);
    var st := Measure(profile, ref, CentreAngles(cfg.bins));
    assert PolarStatsResult(ps, ref, cfg) == Success(st);
    assert st.sigmaSquared == Square(ref - ref) == 0.0;
    assert st.sigmaRelSquared == RelativeSquared(0.0, ref);
    if ref > RefEpsilon {
      ZeroRelative(ref);
    }
  }

  /**
   * Samples that all lie on one circle of radius `c` give `max_abs` and `mae`
   * equal to `|c - R_ref|` and `sigma**2` equal to `(c - R_ref)**2`.
   */
  lemma UniformCircleError(ps: seq<PolarSample>, ref: real, c: real, cfg: Config)
    requires AllInTurn(ps) && |ps| >= MinPoints && cfg.bins > 0
    requires forall j :: 0 <= j < |ps| ==> ps[j].r == c
    ensures PolarStatsResult(ps, ref, cfg).Success?
    ensures PolarStatsResult(ps, ref, cfg).value.maxAbs == Abs(c - ref)
    ensures PolarStatsResult(ps, ref, cfg).value.mae == Abs(c - ref)
    ensures PolarStatsResult(ps, ref, cfg).value.sigmaSquared == Square(c - ref)
  {
    var profile := FinalProfile(ps, cfg);
    ProfileWithinRadii(ps, cfg, c, c);
    ConstantProfileErrors(profile, ref, c);
  }

  lemma ConstantProfileErrors(profile: seq<real>, ref: real, c: real)
    requires |profile| > 0 && Within(profile, c, c)
    ensures MaxAbsError(profile, ref) == Abs(c - ref)
    ensures MeanAbsError(profile, ref) == Abs(c - ref)
    ensures MeanSquaredError(profile, ref) == Square(c - ref)
  {
    var a, sq := Abs(c - ref), Square(c - ref);
    assert Within(AbsErrors(profile, ref), a, a);
    MeanWithin(AbsErrors(profile, ref), a, a);
    assert Within(SquaredErrors(profile, ref), sq, sq);
    MeanWithin(SquaredErrors(profile, ref), sq, sq);
  }

  /**
   * Twenty or more samples at radius 100 with the default configuration and
   * the reference radius 160: `sigma` is 60 (`sigma**2 == 3600`) and
   * `sigma_rel` is 0.375 (`sigma_rel**2 == 0.140625`).
   */
  lemma SmallCircleScenario(ps: seq<PolarSample>)
    requires AllInTurn(ps) && |ps| >= MinPoints
    requires forall j :: 0 <= j < |ps| ==> ps[j].r == 100.0
    ensures PolarStatsResult(ps, 160.0, DefaultConfig).Success?
    ensures PolarStatsResult(ps, 160.0, DefaultConfig).value.sigmaSquared == 3600.0
    ensures PolarStatsResult(ps, 160.0, DefaultConfig).value.mae == 60.0
    ensures PolarStatsResult(ps, 160.0, DefaultConfig).value.maxAbs == 60.0
    ensures PolarStatsResult(ps, 160.0, DefaultConfig).value.sigmaRelSquared == Finite(0.140625)
  {
    UniformCircleError(ps, 160.0, 100.0, DefaultConfig);
    assert Square(100.0 - 160.0) == 3600.0;
    assert 3600.0 / Square(160.0) == 0.140625;
  }
}
