# Polar error profile of a traced circle — Dafny model

This project models `compute_polar_stats` from `polar_stats.py`. The function
scores how closely a user traced a circle of a known radius around a declared
centre. It works in stages:

1. It rejects a trace with fewer than 20 points.
2. It sorts each sample's radius into one of `bins` equal angular sectors.
3. It reduces each sector to the median or the mean of its radii. A sector
   with no samples is undefined (NaN).
4. It fills undefined sectors from their nearest defined circular neighbours
   in one in-place sweep.
5. It optionally smooths the profile with a circular moving average of
   `2h+1` bins.
6. It reports the MSE (`sigma**2`), `mae`, `max_abs` and `sigma_rel` of the
   profile against the reference radius.

The web endpoint turns `sigma_rel` into a 0..100 score (`app.py`, line 63).
That formula is modelled as well, because it holds a discrepancy (see
Findings).

Modules, one file each:

- `Binning` (binning.dfy): polar samples, the bin index and the
  binning loop.
- `Aggregation` (aggregation.dfy): sorting, median, mean, the per-bin
  estimate and the aggregation loop.
- `GapFill` (gapfill.dfy): the order-dependent sweep as a
  specification (`SweepUpTo`, `Filled`) and as an in-place method over an
  array (`FillGaps`).
- `Smoothing` (smoothing.dfy): the circular window sum, the smoothed
  profile and the accumulator loop.
- `Metrics` (metrics.dfy): the error measures and infinite `sigma_rel`.
- `PolarStats` (polar_stats.dfy): configuration, errors, the result
  record, the composed specification `PolarStatsResult` and the method
  `ComputePolarStats` that runs the stages in the source's order.
- `Scoring` (scoring.dfy): the score formula of `app.py`.
- `Wrappers`, `RealSeqs`, `Circular`: Option/Result, sums and extremes of
  real sequences, and facts about the Euclidean remainder.

Modelling choices:

- A sample is `PolarSample(frac, r)`. Here `frac = theta / (2*pi)` lies in
  `[0, 1]`. The value `1` stands for the floating-point case that the source's
  `k == bins` clamp exists for.
- Floats are modelled as mathematical reals.
- A NaN bin is `None`.
- `+inf` is `Extended.PosInf`.
- `robust == "median"` is `Mode.Median`, and every other value is `Mode.Mean`.
- Python's `%` with a positive divisor equals Dafny's Euclidean `%`.
- With 20 or more points and `bins <= 0`, the source raises an `IndexError`
  at line 28. The model returns `Failure(BinIndexOutOfRange)` for that case.
- `2*math.pi` is the constant `6.283185307179586`.

## Model

| member | source | states |
|---|---|---|
| `Binning.BinIndex` | polar_stats.py:25-27 | the index lies in `[0, bins-1]`; for a fraction below one turn it is the unique `k` with `k <= frac*bins < k+1`; a full turn is clamped to `bins-1` |
| `Binning.BinLists` | polar_stats.py:23-28 | defines the `bins` lists: list `k` holds, in input order, the radii of the samples whose angle selects bin `k` |
| `Binning.BinSamples` | polar_stats.py:23-28 | the loop's lists are exactly `BinLists`: list `k` holds the radii whose angle selects bin `k`, in input order |
| `Binning.BinListsTotal` | polar_stats.py:23-28 | the bins together hold exactly as many radii as there are samples (none dropped or duplicated) |
| `Binning.SampleInItsBin` | polar_stats.py:24-28 | every sample's radius is in the list of the bin its angle selects |
| `Binning.RadiiInWithin` | polar_stats.py:28 | a bin holds only input radii, so bounds on the radii bound every bin's list |
| `Aggregation.SortAscending` | polar_stats.py:39 | the result is ascending and a permutation (same multiset) of the input |
| `Aggregation.AscendingUnique` | polar_stats.py:39 | two ascending sequences with the same multiset are equal, so `sorted` has one possible result |
| `Aggregation.MedianOf` | polar_stats.py:39-40 | the median lies between the list's minimum and maximum; for an odd count it is one of the radii |
| `Aggregation.MedianOrderFree` | polar_stats.py:39-40 | the median depends only on the multiset of radii, not on their insertion order |
| `Aggregation.MeanOf` | polar_stats.py:43 | the mean lies between the list's minimum and maximum |
| `Aggregation.Estimate` | polar_stats.py:34-43 | a bin is undefined exactly when it is empty; a defined estimate lies between the bin's minimum and maximum radius; an odd-count median is one of the radii |
| `Aggregation.EstimateWithin` | polar_stats.py:34-43 | a bin whose radii lie in `[lo, hi]` gets an estimate in `[lo, hi]` |
| `Aggregation.BinCentre` | polar_stats.py:32 | the centre angle `(k+0.5)*2pi/bins` lies strictly inside sector `k`: `k*2pi < theta*bins < (k+1)*2pi` |
| `Aggregation.AggregateBins` | polar_stats.py:30-43 | the appending loop yields one estimate and one centre angle `(k+0.5)*2pi/bins` per bin, both lists of length `bins` |
| `GapFill.Resolve` | polar_stats.py:58-65 | the value chosen from the two candidates: between them when both are defined, the defined one when only one is, 0.0 when neither is |
| `GapFill.Search` | polar_stats.py:48-65 | the outward search of one bin from distance `d`; its result is 0.0 unless some distance ahead has a defined neighbour |
| `GapFill.SweepUpTo` | polar_stats.py:46-65 | the profile after the sweep has processed bins `0..m-1`: those bins are defined and bins from `m` on are as in the input |
| `GapFill.Filled` | polar_stats.py:46-65 | the gap-filled profile: same number of bins, every bin defined |
| `GapFill.FillGaps` | polar_stats.py:46-65 | the in-place sweep, with its `left`/`right` search and `break`, leaves the array equal to `Filled` of its old contents |
| `GapFill.SearchFirstHit` | polar_stats.py:48-63 | the search stops at the first distance where either side is defined: the average when both sides are defined there, else the one defined side |
| `GapFill.SearchNoHit` | polar_stats.py:48-65 | with no defined neighbour at any distance the bin gets 0.0 |
| `GapFill.SearchWithin` | polar_stats.py:48-63 | a search with a hit ahead returns a value within the bounds of the defined bins |
| `GapFill.FilledUndefined` | polar_stats.py:46-65 | an undefined bin `i` receives the search over the profile in which bins `0..i-1` already hold their final filled values |
| `GapFill.SweepUpToShape` | polar_stats.py:46-47 | the profile after `m` steps is the final profile on bins `0..m-1` and the original on the rest |
| `GapFill.FilledAllDefined` | polar_stats.py:46-65 | after gap-filling no bin is undefined |
| `GapFill.FilledKeepsDefined` | polar_stats.py:46-47 | a bin that was defined keeps its value |
| `GapFill.FilledIdempotent` | polar_stats.py:46-47 | on a profile without undefined bins gap-filling changes nothing |
| `GapFill.FilledTwice` | polar_stats.py:46-65 | filling twice equals filling once |
| `GapFill.AllUndefinedBecomesZero` | polar_stats.py:46-65 | if every bin starts undefined, every bin ends up 0.0 |
| `GapFill.LeftNeighbourFinal` | polar_stats.py:46-53 | when the sweep reaches bin `k > 0`, its left neighbour at distance 1 is bin `k-1`, already holding its final defined value |
| `GapFill.FallbackOnlyAtFirstOfEmpty` | polar_stats.py:48-65 | a search that finds no defined neighbour at any distance happens only for bin 0, and only when every input bin is undefined |
| `GapFill.LaterBinsSeeLeftNeighbour` | polar_stats.py:48-63 | in an all-undefined profile every bin after the first finds its left neighbour at distance 1, holding 0.0 |
| `GapFill.FilledWithin` | polar_stats.py:46-65 | with at least one defined bin, all filled values lie within the bounds of the defined ones |
| `Smoothing.Smoothed` | polar_stats.py:67-75 | defines the smoothed profile, of the input's length: bin `i` is the sum of the `2h+1` wrapped neighbours `(i+d) mod n`, `-h <= d <= h`, divided by `2h+1` |
| `Smoothing.SmoothStage` | polar_stats.py:67-75 | the smoothing stage: `Smoothed` when enabled with `h > 0`, otherwise the input, always of the input's length |
| `Smoothing.Smooth` | polar_stats.py:67-75 | when enabled with `h > 0` the output is `Smoothed`: bin `i` is the sum of the `2h+1` wrapped neighbours divided by `2h+1`; otherwise the profile passes through unchanged |
| `Smoothing.SmoothedWithin` | polar_stats.py:67-75 | smoothing keeps every value within the input's bounds `[a, b]` |
| `Smoothing.SmoothedTotal` | polar_stats.py:67-75 | smoothing preserves the sum (hence the mean) of the profile |
| `Smoothing.ShiftedFull` | polar_stats.py:73 | summing a circularly rotated profile gives the profile's own sum |
| `Metrics.MeanSquaredError` | polar_stats.py:78-79 | `sigma**2`, the mean of the squared errors over all bins, is non-negative |
| `Metrics.MeanAbsError` | polar_stats.py:80 | `mae`, the mean of the absolute errors over all bins, is non-negative |
| `Metrics.MaxAbsError` | polar_stats.py:81 | `max_abs` bounds every bin's absolute error and is attained at some bin |
| `Metrics.RelativeSquared` | polar_stats.py:82 | `sigma_rel` is infinite exactly when `R_ref <= 1e-9`; otherwise `sigma_rel**2 * R_ref**2 == sigma**2` |
| `Metrics.ZeroRelative` | polar_stats.py:82 | with `R_ref > 1e-9`, a zero `sigma**2` gives a zero `sigma_rel**2` |
| `Metrics.RootUnique` | polar_stats.py:79-82 | non-negative square roots are unique, so `sigma_rel` is determined by the reported `sigma_rel**2` |
| `Metrics.MaeBelowMax` | polar_stats.py:80-81 | `0 <= mae <= max_abs` |
| `Metrics.MseBelowMaxSquared` | polar_stats.py:78-81 | `0 <= sigma**2 <= max_abs**2` |
| `Metrics.ExactIffZeroMax` | polar_stats.py:81 | `max_abs == 0` exactly when every bin equals `R_ref` |
| `Metrics.ExactIffZeroMae` | polar_stats.py:80 | `mae == 0` exactly when every bin equals `R_ref` |
| `Metrics.ExactZeroMse` | polar_stats.py:78-79 | if every bin equals `R_ref` then `sigma**2 == 0` |
| `Metrics.OffCirclePositiveMse` | polar_stats.py:78-79 | one bin away from `R_ref` makes `sigma**2` strictly positive |
| `Metrics.ExactIffZeroMse` | polar_stats.py:78-79 | `sigma**2 == 0` exactly when every bin equals `R_ref` |
| `PolarStats.Values` | polar_stats.py:90 | the profile without undefined bins, value for value |
| `PolarStats.FinalProfile` | polar_stats.py:23-75 | the profile after binning, aggregation, gap-filling and optional smoothing, with `bins` values |
| `PolarStats.Measure` | polar_stats.py:77-92 | the record echoes the profile, angles and `R_ref`; `0 <= mae <= max_abs`, `0 <= sigma**2 <= max_abs**2`, `max_abs` bounds every bin's error, and `sigma_rel` is infinite exactly when `R_ref <= 1e-9` |
| `PolarStats.PolarStatsResult` | polar_stats.py:4-92 | fails with `TooFewPoints` exactly when there are fewer than 20 samples; succeeds exactly when there are at least 20 and `bins > 0`; a result has `bins` profile values and `bins` centre angles `(k+0.5)*2pi/bins` |
| `PolarStats.ComputePolarStats` | polar_stats.py:4-92 | running the stage methods in order (binning, aggregation, in-place filling of a buffer, smoothing, metrics) returns `PolarStatsResult` |
| `PolarStats.ProfileWithinRadii` | polar_stats.py:23-75 | if all sample radii lie in `[lo, hi]`, so does every value of the final profile |
| `PolarStats.ExactCircleZeroError` | polar_stats.py:77-82 | samples all at distance `R_ref` give `sigma**2 == mae == max_abs == 0`, and `sigma_rel == 0` when `R_ref > 1e-9`, whatever the angular coverage |
| `PolarStats.UniformCircleError` | polar_stats.py:77-81 | samples all at radius `c` give `max_abs == mae == abs(c - R_ref)` and `sigma**2 == (c - R_ref)**2` |
| `PolarStats.SmallCircleScenario` | polar_stats.py:77-82 | 20 or more samples at radius 100 with the defaults and `R_ref = 160` give `sigma**2 == 3600` (sigma 60) and `sigma_rel**2 == 0.140625` (0.375) |
| `Scoring.RoundHalfEven` | app.py:63 | Python's `round`: within 0.5 of the argument, halves going to the even integer |
| `Scoring.Clamp` | app.py:63 | the result lies in `0..100` and equals its argument inside that range |
| `Scoring.Score` | app.py:63 | the score lies in `0..100`, and an infinite `sigma_rel` scores 0 |
| `Scoring.ScoreAsWritten` | app.py:63 | the app's formula fails exactly for an infinite `sigma_rel`, and otherwise yields a score in `0..100` |
| `Scoring.ScoreAgreesWhenFinite` | app.py:63 | for a finite `sigma_rel` the app's formula returns the corrected score |
| `Scoring.AsWrittenFailsOnInfinite` | app.py:63 | for an infinite `sigma_rel` the app's formula raises instead of returning a score |
| `Scoring.PerfectTraceScoresFull` | app.py:63 | `sigma_rel == 0` scores 100 |
| `Scoring.SmallCircleScore` | app.py:63 | `sigma_rel == 0.375` with the default slope 200 scores 25 |
| `Scoring.DegenerateReferenceScore` | app.py:63 | end to end: with `R_ref <= 1e-9` the app's formula fails on the result of `compute_polar_stats`, and the corrected score is 0 |
| `Scoring.ExactCircleScoresFull` | app.py:63 | end to end: samples all on a reference circle of radius above 1e-9 receive the score 100 |
| `Scoring.SmallCircleScoresTwentyFive` | app.py:63 | end to end: samples all at radius 100 against `R_ref = 160` with the defaults give `sigma_rel == 0.375` and the score 25 |

## Left out

- The coordinate transform (polar_stats.py:13-21): `atan2`, the square root of
  the distance and the `2*pi` normalisation are floating-point library calls.
  Samples enter the model already in polar form.
- The square root in `sigma` (line 79): the model reports `sigma**2` and
  `sigma_rel**2`. `Metrics.RootOf` relates `sigma_rel` to the reported
  square, and `Metrics.RootUnique` shows this determines it.
- IEEE floating point: the model uses exact reals, so there is no rounding in
  sums, means or the bin index. NaN and infinity are represented by datatypes.
- All of app.py except line 63: the Flask routes and JSON parsing,
  configuration from environment variables (for example `TARGET_R`, default
  160), and spreadsheet logging. These are I/O with no algorithmic content.
- `PolarStats.ComputePolarStats`: the Python lists become Dafny values.
  `bin_lists` and the appended `rho`/`theta_bins` are `seq` values that the
  loops reassign. The gap-filling sweep runs in place on an `array`, as the
  source mutates `rho`. Aliasing of the caller's `points` list is not modelled
  because the source never mutates it.

## Findings

| source | as written | input that shows it | evidently intended | confidence | as-written member | corrected member |
|---|---|---|---|---|---|---|
| app.py:63 | `int(round(100 - SCORE_SLOPE * sigma_rel))` is applied to the infinite `sigma_rel` that `compute_polar_stats` returns when `R_ref <= 1e-9`; `round` of an infinite float raises `OverflowError`, and of NaN (slope 0) raises `ValueError`, so the request fails | `TARGET_R=0` (any submission of 20 or more points) | line 82 signals a degenerate reference radius with `+inf`, the worst possible `sigma_rel`, and the `max(0, min(100, ...))` clamp gives every arbitrarily bad trace the floor 0, so this case should score 0 rather than fail the request | high; not executed | `Scoring.ScoreAsWritten` with `Scoring.AsWrittenFailsOnInfinite` | `Scoring.Score` with `Scoring.ScoreAgreesWhenFinite` |
