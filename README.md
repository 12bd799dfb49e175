# sugayutils core, modelled in Dafny

A model of the algorithmic core of `sugayutils`. Every quantity is an exact
`real`. Two of the repository's tests check, up to rounding, identities that
hold exactly here: the first moment is zero (`FirstMomentIsZero`) and the
skewness of symmetric data is zero (`SymmetricSkewnessIsZero`). Its
variance, standard deviation and kurtosis tests compare against a sampled
Gaussian's parameters, which are not identities and are not restated. The
core has three parts:

- `weightedstats.dfy`: weighted statistics of 1-D data.
  - Module `WeightedStats` models `_average`, `moment`, `variance`, `std`, `gauss_fwhm`, `skewness` and `kurtosis`.
  - It also models the sigma-clipping loop `_clipped_index1d`: a method with a `while` loop, proved equal to a specification function and to its fixed-point property.
  - Module `WeightedStatsProperties` holds the lemmas about these: the first moment is zero, the variance is non-negative, clipping restricts the moment to the retained values, clipping is idempotent, and odd moments of symmetric data vanish.
- `kde.dfy`, module `ReflectedKde`: the reflected kernel density estimate.
  - Construction drops non-finite samples.
  - Evaluation adds mirror images of the density across optional bounds, in place into a `pdf` array.
  - It zeroes an in-place `normalization` array outside the bounds.
  - The wrapped Gaussian density is the function parameter `base`.
- `misc.dfy`, module `Misc`: `get_argnearest`, `get_nearest` and `scale`.
- `floats.dfy`, module `Floats`: the vocabulary these share.
  - `Option` and `Result`.
  - `Num`, a float that is finite, NaN or a signed infinity.
  - IEEE-style `Add`, `Sub`, `Mul` and `Div` on `Num`.

Errors that numpy raises become `Err` values rather than preconditions:

- the weights summing to zero in `np.average`;
- mismatched shapes;
- an empty array in `nanmin`;
- no finite sample left for the KDE;
- a KDE fitted on multi-dimensional data;
- fewer than two evaluation points.

Two pieces of behaviour are modelled as written, because the code decides them:

- `np.average` raises `ZeroDivisionError` when the weights sum to zero. A zero-weight reduction therefore fails with `ZeroTotalWeight`; it does not produce NaN.
  - This includes the retained subset becoming empty during clipping.
- `KDE.__init__` does not restrict the sample to 1-D.
  - An all-finite array keeps its shape.
  - An array with a non-finite entry is flattened, through boolean indexing, to the 1-D row of its finite entries (`ReflectedKde.Fit`).

Negative weights are not rejected anywhere in the code. Non-negativity appears only as a hypothesis of the lemmas that need it.

The `_clipped_index1d` loop has no iteration cap in the source. The model gives it one, `maxIter`, as a policy choice: running out of passes is the distinct error `NotConverged`. The same cap comes with the `sigma` argument, as `SigmaClip(sigma, maxIter)`.

## Model

| member | source | states |
|---|---|---|
| WeightedStats.Average | sugayutils/stat/weightedstats.py:199 | defined exactly when values and weights have the same length and the weights do not sum to zero; otherwise the error is `ShapeMismatch` or `ZeroTotalWeight` respectively |
| WeightedStatsProperties.AverageIsWeightedMean | sugayutils/stat/weightedstats.py:199 | the mean times the total weight is the weighted sum Σ w·v |
| WeightedStatsProperties.AverageBetween | sugayutils/stat/weightedstats.py:199 | with non-negative weights the mean lies between any lower and upper bound of the values |
| WeightedStats.CentralMoment | sugayutils/stat/weightedstats.py:40-41 | the central moment is defined exactly when the mean is, with the same error |
| WeightedStats.Moment | sugayutils/stat/weightedstats.py:9-41 | without clipping: defined exactly when the lengths agree and the total weight is non-zero, with the matching error; with clipping: defined only if the clip mask was computed and the lengths agree, a clipping error is passed through unchanged, and on non-empty values a computed mask always gives a moment |
| WeightedStats.Variance | sugayutils/stat/weightedstats.py:67 | without clipping: defined exactly when the lengths agree and the total weight is non-zero, with the matching error; with clipping on non-empty values, defined whenever the mask was computed |
| WeightedStatsProperties.FirstMomentIsZero | sugayutils/stat/weightedstats.py:40-41 | the first moment about the weighted mean is exactly 0, clipped or not |
| WeightedStatsProperties.VarianceNonNegative | sugayutils/stat/weightedstats.py:67 | `variance` (the order-2 moment) is ≥ 0 when the weights are non-negative, clipped or not |
| WeightedStats.Std | sugayutils/stat/weightedstats.py:93 | defined exactly when the variance is; finite exactly when the variance is ≥ 0 (NaN otherwise), and then the non-negative root of the variance |
| WeightedStats.GaussFwhm | sugayutils/stat/weightedstats.py:119-121 | defined exactly when the variance is; finite exactly when the variance is ≥ 0 |
| WeightedStats.GaussFwhmSquared | sugayutils/stat/weightedstats.py:119-121 | a finite FWHM is ≥ 0 and its square is 8·ln 2 times the variance |
| WeightedStats.Skewness | sugayutils/stat/weightedstats.py:147-149 | defined exactly when the unclipped variance and the (possibly clipped) third moment are; finite exactly when the unclipped variance is > 0; NaN exactly when that variance is negative or both it and the third moment are 0; a finite skewness q satisfies q·sqrt(v)³ = m3, sign included, with v the unclipped variance and m3 the third moment |
| WeightedStats.SkewnessOf | sugayutils/stat/weightedstats.py:147-149 | `m3 / std**3` for a variance v: finite exactly when v > 0, NaN exactly when v < 0 or v = m3 = 0, and a finite result q has q·sqrt(v)³ = m3 |
| WeightedStats.StdOf | sugayutils/stat/weightedstats.py:93 | the standard deviation of a variance v: finite exactly when v ≥ 0, and then `sqrt(v)`, the non-negative root of v; NaN exactly when v < 0 |
| WeightedStats.OverCube | sugayutils/stat/weightedstats.py:147-149 | `m / s**3`: finite exactly when s > 0, and then q·s³ = m; for s = 0 NaN exactly when m = 0 and an infinity otherwise; NaN stays NaN |
| WeightedStats.SkewnessNormalisation | sugayutils/stat/weightedstats.py:147-149 | a finite skewness q satisfies q²·v³ = m3², with v the UNCLIPPED variance even when clipping is requested |
| WeightedStats.Kurtosis | sugayutils/stat/weightedstats.py:178-180 | defined exactly when the unclipped variance and the fourth moment are; finite exactly when the unclipped variance is non-zero, and then (k + 3)·v² = m4 |
| WeightedStats.ExcessKurtosis | sugayutils/stat/weightedstats.py:178-180 | `m / v**2 - 3`: finite exactly when v ≠ 0, and then (k + 3)·v² = m |
| WeightedStats.Select | sugayutils/stat/weightedstats.py:36 | boolean indexing keeps as many entries as the mask has `True` (its contents are stated by `SelectAppend` and `SelectSnoc`) |
| WeightedStatsProperties.SelectAppend | sugayutils/stat/weightedstats.py:36 | masking a concatenation with the concatenated masks is the concatenation of the two maskings: order is kept and nothing is lost or added |
| WeightedStatsProperties.SelectSnoc | sugayutils/stat/weightedstats.py:36 | appending a value with mask bit b appends that value to the result exactly when b is `True` |
| WeightedStats.ClipStep | sugayutils/stat/weightedstats.py:227-230 | one pass is defined exactly when the retained weights do not sum to zero (else `ZeroTotalWeight`), and gives a mask over ALL values |
| WeightedStats.ClipIterate | sugayutils/stat/weightedstats.py:226-230 | a successful run returns a mask over all values that either equals the unchanged mask or is a fixed point of one pass |
| WeightedStats.ClippedMask | sugayutils/stat/weightedstats.py:223-232 | empty values give the empty mask without any pass; non-empty values with weights of another length give `ShapeMismatch`; a returned mask covers every value and is a fixed point of one pass |
| WeightedStats.ClippedIndex1d | sugayutils/stat/weightedstats.py:207-232 | the `while` loop returns exactly what `ClippedMask` specifies, so its mask has the length of the values and is a fixed point |
| WeightedStats.WithinSigma | sugayutils/stat/weightedstats.py:230 | a point passes the clip test only if sigma > 0 and the variance is > 0; with both positive, the mean itself always passes |
| WeightedStatsProperties.WithinSigmaIsClipTest | sugayutils/stat/weightedstats.py:229-230 | the squared test used by the model is `|v - avg| < sigma·std` for the non-negative root `std` of the variance |
| WeightedStatsProperties.ClippedMomentOnRetained | sugayutils/stat/weightedstats.py:34-41 | a clipped moment is the unclipped moment of the retained values and weights; the mask retains at least one value and is a fixed point |
| WeightedStatsProperties.ClipIdempotent | sugayutils/stat/weightedstats.py:223-232 | clipping the retained values again with the same sigma retains all of them after one pass |
| WeightedStatsProperties.SymmetricMean | sugayutils/stat/weightedstats.py:199 | data mirror-symmetric about c (with mirror-equal weights) has mean c |
| WeightedStatsProperties.SymmetricOddMomentsVanish | sugayutils/stat/weightedstats.py:40-41 | every odd central moment of symmetric data is exactly 0 |
| WeightedStatsProperties.SymmetricSkewnessIsZero | sugayutils/stat/weightedstats.py:147-149 | symmetric data with positive variance has skewness exactly 0 |
| ReflectedKde.FiniteValues | sugayutils/stat/kde.py:21-23 | at most as long as its input, and as long exactly when every entry is finite (its contents are stated by `FiniteValuesAppend`, `FiniteValuesSnoc` and `FiniteValuesMembers`) |
| ReflectedKde.FiniteValuesAppend | sugayutils/stat/kde.py:21-23 | filtering a concatenation is the concatenation of the filtered parts, so the order of the finite entries is kept |
| ReflectedKde.FiniteValuesSnoc | sugayutils/stat/kde.py:21-23 | appending an entry appends its value exactly when it is finite |
| ReflectedKde.FiniteValuesMembers | sugayutils/stat/kde.py:21-23 | a real is kept exactly when it occurs as a finite entry |
| ReflectedKde.Fit | sugayutils/stat/kde.py:19-26 | fails with `NoValidData` exactly when no entry is finite; otherwise the stored samples, read row by row, are exactly the finite entries in order; an all-finite array keeps its shape and values; otherwise the dataset is one row |
| ReflectedKde.SqueezedDims | sugayutils/stat/kde.py:30 | after squeezing, more than one dimension remains exactly when there is not exactly one row and not exactly one sample |
| ReflectedKde.Tolerance | sugayutils/stat/kde.py:34 | the tolerance `delta` has the sign of the bin width and is strictly smaller in magnitude (zero for a zero width) |
| ReflectedKde.ReflectedDensity | sugayutils/stat/kde.py:36-44 | 0 at a point beyond a given bound by more than the tolerance, the density plus the mirror terms elsewhere |
| ReflectedKde.AddInPlace | sugayutils/stat/kde.py:38 | `pdf += terms` adds each term to its entry in place |
| ReflectedKde.ZeroWhere | sugayutils/stat/kde.py:39 | `normalization[mask] = 0.0` zeroes exactly the masked entries in place and keeps the others |
| ReflectedKde.AddLowerImages | sugayutils/stat/kde.py:37-38 | with a lower bound, every entry gains the density at its mirror point `2·lower − p − binsize`; without one, every entry is unchanged |
| ReflectedKde.AddUpperImages | sugayutils/stat/kde.py:40-41 | with an upper bound, every entry gains the density at its mirror point `2·upper − p + binsize`; without one, every entry is unchanged |
| ReflectedKde.ReflectedPdf | sugayutils/stat/kde.py:36-41 | a fresh array, one entry per point, holding the density plus the mirror terms of the given bounds |
| ReflectedKde.Normalization | sugayutils/stat/kde.py:32-42 | a fresh array, one entry per point: 0 below the lower bound minus the tolerance or above the upper bound plus it, 1 elsewhere |
| ReflectedKde.Evaluate | sugayutils/stat/kde.py:28-46 | `NotOneDimensional` for a dataset with more than one dimension after squeezing; `TooFewPoints` for fewer than two points; otherwise one value per point, equal to the reflected density with binsize `points[1] - points[0]`; calling the object is this same operation |
| ReflectedKde.UnboundedIsBase | sugayutils/stat/kde.py:36-44 | with neither bound, the result is the base density |
| ReflectedKde.InsideBoundsIsReflectedSum | sugayutils/stat/kde.py:36-44 | within the bounds, up to the tolerance, the result is the density plus the mirror terms |
| ReflectedKde.LowerMirrorIsReflection | sugayutils/stat/kde.py:38 | the lower mirror point is the reflection of p about half a bin below the bound, and reflecting it again gives p back |
| ReflectedKde.UpperMirrorIsReflection | sugayutils/stat/kde.py:41 | the upper mirror point is the reflection of p about half a bin above the bound, and reflecting it again gives p back |
| ReflectedKde.ReflectedDensityNonNegative | sugayutils/stat/kde.py:36-44 | a non-negative base density gives a non-negative result |
| ReflectedKde.NonZeroWithinBounds | sugayutils/stat/kde.py:39-42 | with both bounds, a non-zero result can only occur within the bounds widened by the tolerance |
| Misc.ArgSort | sugayutils/core/misc.py:39 | a permutation of all indices (valid, pairwise distinct, every index present) along which the keys never decrease |
| Misc.GetArgNearest | sugayutils/core/misc.py:33-40 | returns as many indices as `[:num]` keeps; they are valid and pairwise distinct; their distances from `value` never decrease; every index left out is at least as far as every returned one |
| Misc.SliceLength | sugayutils/core/misc.py:30-40 | `[:num]` keeps min(num, n) entries for num ≥ 0; for a negative num it drops -num entries from the end, or keeps none when -num > n |
| Misc.ArgNearestCount | sugayutils/core/misc.py:38-40 | for `num` ≥ 0, exactly min(num, len) indices; when num ≥ len, every index |
| Misc.GetNearest | sugayutils/core/misc.py:23-30 | `diff + value` at the chosen indices is exactly the list's element there; the returned values are in non-decreasing distance from `value` |
| Misc.NearestAreClosest | sugayutils/core/misc.py:28-30 | every element left out is at least as far from `value` as every returned one |
| Misc.NanMinimum | sugayutils/core/misc.py:18 | NaN exactly when every entry is NaN; otherwise an entry that is at most every non-NaN entry |
| Misc.NanMaximum | sugayutils/core/misc.py:19 | NaN exactly when every entry is NaN; otherwise an entry that is at least every non-NaN entry |
| Misc.Scale | sugayutils/core/misc.py:12-20 | an error exactly for an empty array; otherwise one result per entry, NaN entries stay NaN, and an all-NaN array gives all NaN |
| Misc.Rescale | sugayutils/core/misc.py:20 | a NaN entry or extreme gives NaN; with finite entry and extremes the result is finite exactly when max ≠ min; with distinct finite extremes the minimum maps to `scale[0]` and the maximum to `scale[1]` |
| Misc.ExtremesFinite | sugayutils/core/misc.py:18-19 | with no infinite entry, a finite entry lies between the finite min and max |
| Misc.ScaleFinite | sugayutils/core/misc.py:18-20 | on data with distinct finite extremes and no infinity, a finite x becomes (x - min)/(max - min)·(hi - lo) + lo |
| Misc.ScaleEndpoints | sugayutils/core/misc.py:18-20 | the minimum goes to `scale[0]` and the maximum to `scale[1]` |
| Misc.ScaleIsAffine | sugayutils/core/misc.py:20 | every finite entry goes through the same line x ↦ slope·x + intercept |
| Misc.ScaleMonotone | sugayutils/core/misc.py:20 | with `scale[0] <= scale[1]` the order of finite entries is kept and the result of every finite entry lies in [scale[0], scale[1]]; NaN entries stay NaN |
| Misc.ScaleRoundTrip | sugayutils/core/misc.py:20 | with `scale[0] != scale[1]` the inverse map gives each finite entry back from its scaled value |
| Misc.ScaleNoSpread | sugayutils/core/misc.py:18-20 | with no infinite entry and min = max, every result is NaN (zero over zero) |

## Left out

- Units. astropy quantities and unit propagation are left out; values and weights are unitless reals.
- Axis reduction. The `axis` argument and the keep-dims reshape of `_average` are left out; every statistic reduces a 1-D sequence.
- Floating point.
  - Every finite float is an exact real: no rounding, no overflow, no signed zero.
  - `Div` reads a zero divisor as positive zero.
  - `GetNearest` returns the element itself, where `(x - value) + value` may differ from `x` by a rounding error.
- numpy's `np.sqrt` and `np.log` are the parameters `sqrt` and `ln`. Only the root's defining property (`IsSquareRoot`) is assumed of `sqrt`, and only `ln(2.0) >= 0` of `ln`.
- The Gaussian kernel density of scipy's `gaussian_kde` is the parameter `base`. Its bandwidth selection is not modelled, nor its own shape errors (a dataset too small to estimate a covariance, points whose dimension does not match the dataset's). `base` is assumed to return finite reals, so `pdf * normalization` never meets `inf * 0`.
- Extra keyword arguments forwarded by `KDE.__init__` to `gaussian_kde` are not modelled.
- WeightedStats.ClippedMask: the source loop is unbounded. The model stops after `maxIter` passes with `NotConverged`, which the source never raises.
- WeightedStats.Moment: `order` is a natural number. Negative or non-integer orders are not modelled.
- The clipped-points count of the repository's test (sugayutils/test/stat/test_weightedstats.py:31) depends on `exp`-generated weights, so it is not reproduced.
- Misc.ArgSort: numpy's default sort is not stable. The model sorts stably but states only the ordering relation, so ties may be broken either way.
- WeightedStats: values, weights and sigma are finite reals. numpy propagates a NaN value instead: it makes the mean NaN (sugayutils/stat/weightedstats.py:199), makes every clip test at line 230 false, and so makes the next clipping pass raise `ZeroDivisionError`. None of this is modelled.
- Misc.NanMinimum and Misc.NanMaximum: on an empty sequence they give NaN, where `np.nanmin` and `np.nanmax` raise `ValueError`. `Scale` rejects empty input before calling them, so `scale` itself keeps numpy's error.
- Misc.GetArgNearest and Misc.GetNearest: the list holds reals. NaN elements, which numpy sorts last, are not modelled.
- Misc.Scale: `scale` is given as its two entries `lo` and `hi`. A shorter list (an `IndexError`) and infinite targets are not modelled.
- Misc.ScaleFinite, Misc.ScaleEndpoints, Misc.ScaleIsAffine, Misc.ScaleMonotone and Misc.ScaleRoundTrip hold for data without infinite entries. `Scale` itself computes the IEEE results for infinite entries, but no property of those results is stated.
- The rest of the repository is not part of this model: plotting, file conversion, blackbody and literature formulas, constant tables, and package `__init__` files.
